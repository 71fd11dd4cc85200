/**
 * The guardrail's judgement of one write and the state it keeps between invocations
 * (bin/cli/src/hook.rs; `HookWriteJudge` in bin/cli/src/agent.rs).
 */
module Hook {
  import opened Wrappers
  import opened Profiles
  import opened Policy
  import opened Breaker
  import opened Loops
  import Baseline
  import Text

  /** What the guardrail takes from elsewhere: globs, the hasher, lower-casing. */
  datatype Env = Env(globs: Globs, hash: Hasher, lower: string -> string)

  /**
   * One proposed write: the repository-relative path, the content when it is known, the findings
   * the analysis attributes to it and whether a Gherkin scenario covers the path.
   */
  datatype Attempt = Attempt(path: string, content: Option<string>, findings: seq<Finding>, covered: bool) {
    predicate Valid() {
      ValidFindings(findings)
    }

    /** What the loop guard is told, under the path the caller uses for the file. */
    function AsWrite(given: string): Write {
      Write(given, if content.Some? then content.value else "")
    }
  }

  /** To the loop guard, content that could not be read is empty content. */
  lemma UnreadIsEmpty(a: Attempt, given: string)
    ensures a.(content := None).AsWrite(given) == a.(content := Some("")).AsWrite(given) == Write(given, "")
    ensures forall text :: a.(content := Some(text)).AsWrite(given) == Write(given, text)
  {
  }

  datatype Verdict =
    | Silent
    | Denial(path: string, evaluation: Evaluation)
    | Advice(path: string, evaluation: Evaluation)

  function FromEvaluation(path: string, e: Evaluation): Verdict {
    if e.violations == [] then Silent else if e.IsDenied() then Denial(path, e) else Advice(path, e)
  }

  function EvaluationOf(v: Verdict): Evaluation {
    if v.Silent? then Evaluation([]) else v.evaluation
  }

  // ---------------------------------------------------------------------------
  // Escalation tokens
  // ---------------------------------------------------------------------------

  function Part(f: Finding): string {
    f.rule + ":" + Text.Decimal(f.line) + ":" + f.message
  }

  function EscalatedFindings(e: Evaluation): seq<Finding> {
    FindingsBehind(Escalations(e.violations))
  }

  function Parts(findings: seq<Finding>): seq<string> {
    seq(|findings|, i requires 0 <= i < |findings| => Part(findings[i]))
  }

  function EscalatedParts(e: Evaluation): seq<string> {
    Parts(EscalatedFindings(e))
  }

  function FindingsText(findings: seq<Finding>): string {
    Text.Join(Text.Sort(Parts(findings)), '|')
  }

  /** What the token is a hash of, next to the path. */
  function EscalatedText(e: Evaluation): string {
    FindingsText(EscalatedFindings(e))
  }

  /** Identifies the escalated part of a write; `None` when nothing escalated. */
  function EscalationToken(hash: Hasher, path: string, e: Evaluation): Option<string> {
    if EscalatedParts(e) == [] then None else Some(hash(path, EscalatedText(e)))
  }

  /** The same escalated findings yield the same token, in whatever order they are reported. */
  lemma TokenIgnoresOrder(hash: Hasher, path: string, e1: Evaluation, e2: Evaluation)
    requires multiset(EscalatedParts(e1)) == multiset(EscalatedParts(e2))
    ensures EscalationToken(hash, path, e1) == EscalationToken(hash, path, e2)
  {
    var p1, p2 := EscalatedParts(e1), EscalatedParts(e2);
    assert |multiset(p1)| == |p1| && |multiset(p2)| == |p2|;
    Text.SortSorts(p1);
    Text.SortSorts(p2);
    Text.SortedIsUnique(Text.Sort(p1), Text.Sort(p2));
  }

  lemma PartReads()
    ensures Part(Finding("a:b", Info, "m", 120)) == "a:b:120:m"
  {
    assert Text.Decimal(1) == "1" && Text.Decimal(12) == "12" && Text.Decimal(120) == "120";
  }

  /** What of a finding enters the token. */
  datatype FindingKey = FindingKey(rule: RuleId, line: nat, message: string)

  function KeyOf(f: Finding): FindingKey {
    FindingKey(f.rule, f.line, f.message)
  }

  function Keys(findings: seq<Finding>): multiset<FindingKey> {
    Baseline.KeyBag(KeyOf, findings)
  }

  predicate ValidFindings(findings: seq<Finding>) {
    forall i :: 0 <= i < |findings| ==> IsRuleId(findings[i].rule)
  }

  lemma RuleParts(r: RuleId) returns (space: string, code: string)
    requires IsRuleId(r)
    ensures r == space + ":" + code && ':' !in space && ':' !in code
  {
    var k :| 0 <= k < |r| && r[k] == ':' && IsRulePart(r[..k]) && IsRulePart(r[k + 1..]);
    space, code := r[..k], r[k + 1..];
    assert r == space + ":" + code;
  }

  lemma ColonsAssociate(a: string, b: string, c: string)
    ensures (a + ":" + b) + ":" + c == a + ":" + (b + ":" + c)
  {
  }

  /** A rule id has one colon, so where it ends in front of another is determined. */
  lemma RuleThenColon(r1: RuleId, x: string, r2: RuleId, y: string)
    requires IsRuleId(r1) && IsRuleId(r2)
    requires r1 + ":" + x == r2 + ":" + y
    ensures r1 == r2 && x == y
  {
    var s1, c1 := RuleParts(r1);
    var s2, c2 := RuleParts(r2);
    ColonsAssociate(s1, c1, x);
    ColonsAssociate(s2, c2, y);
    Text.SplitIsUnique(s1, c1 + ":" + x, s2, c2 + ":" + y, ':');
    Text.SplitIsUnique(c1, x, c2, y, ':');
  }

  /** A part determines the rule, the line and the message it was made of. */
  lemma PartIsInjective(f: Finding, h: Finding)
    requires IsRuleId(f.rule) && IsRuleId(h.rule)
    requires Part(f) == Part(h)
    ensures KeyOf(f) == KeyOf(h)
  {
    var x, y := Text.Decimal(f.line) + ":" + f.message, Text.Decimal(h.line) + ":" + h.message;
    assert Part(f) == f.rule + ":" + x && Part(h) == h.rule + ":" + y;
    RuleThenColon(f.rule, x, h.rule, y);
    Text.SplitIsUnique(Text.Decimal(f.line), f.message, Text.Decimal(h.line), h.message, ':');
    Text.DigitsOfDecimal(f.line);
    Text.DigitsOfDecimal(h.line);
  }

  lemma SameKeySamePart(f: Finding, h: Finding)
    requires IsRuleId(f.rule) && IsRuleId(h.rule)
    ensures Part(f) == Part(h) <==> KeyOf(f) == KeyOf(h)
  {
    if Part(f) == Part(h) {
      PartIsInjective(f, h);
    }
  }

  lemma PartsSnoc(findings: seq<Finding>, f: Finding)
    ensures Parts(findings + [f]) == Parts(findings) + [Part(f)]
  {
  }

  lemma {:induction false} PartCounts(findings: seq<Finding>, f: Finding)
    requires ValidFindings(findings) && IsRuleId(f.rule)
    ensures multiset(Parts(findings))[Part(f)] == Keys(findings)[KeyOf(f)]
  {
    if findings != [] {
      var rest, last := findings[..|findings| - 1], findings[|findings| - 1];
      PartCounts(rest, f);
      SameKeySamePart(last, f);
      PartsSnoc(rest, last);
      assert findings == rest + [last];
    }
  }

  /** The bag of parts and the bag of keys tell the same. */
  lemma SamePartsIffSameKeys(f1: seq<Finding>, f2: seq<Finding>)
    requires ValidFindings(f1) && ValidFindings(f2)
    ensures multiset(Parts(f1)) == multiset(Parts(f2)) <==> Keys(f1) == Keys(f2)
  {
    var p1, p2 := multiset(Parts(f1)), multiset(Parts(f2));
    if p1 == p2 {
      forall k
        ensures Keys(f1)[k] == Keys(f2)[k]
      {
        SameKeyCount(f1, f2, k);
        SameKeyCount(f2, f1, k);
      }
    }
    if Keys(f1) == Keys(f2) {
      forall part
        ensures p1[part] == p2[part]
      {
        SamePartCount(f1, f2, part);
        SamePartCount(f2, f1, part);
      }
    }
  }

  lemma SameKeyCount(f1: seq<Finding>, f2: seq<Finding>, k: FindingKey)
    requires ValidFindings(f1) && ValidFindings(f2)
    requires multiset(Parts(f1)) == multiset(Parts(f2))
    ensures Keys(f1)[k] > 0 ==> Keys(f2)[k] == Keys(f1)[k]
  {
    Baseline.KeyBagMembers(KeyOf, f1, k);
    if i :| 0 <= i < |f1| && KeyOf(f1[i]) == k {
      PartCounts(f1, f1[i]);
      PartCounts(f2, f1[i]);
    }
  }

  lemma SamePartCount(f1: seq<Finding>, f2: seq<Finding>, part: string)
    requires ValidFindings(f1) && ValidFindings(f2)
    requires Keys(f1) == Keys(f2)
    ensures multiset(Parts(f1))[part] > 0 ==> multiset(Parts(f2))[part] == multiset(Parts(f1))[part]
  {
    if part in Parts(f1) {
      var i :| 0 <= i < |f1| && Parts(f1)[i] == part;
      PartCounts(f1, f1[i]);
      PartCounts(f2, f1[i]);
    }
  }

  /** The hash keeps these two writes apart if their paths or texts differ. */
  predicate NoTokenCollision(hash: Hasher, path1: string, e1: Evaluation, path2: string, e2: Evaluation) {
    hash(path1, EscalatedText(e1)) == hash(path2, EscalatedText(e2))
    ==> path1 == path2 && EscalatedText(e1) == EscalatedText(e2)
  }

  lemma TokenIsText(hash: Hasher, path1: string, e1: Evaluation, path2: string, e2: Evaluation)
    requires NoTokenCollision(hash, path1, e1, path2, e2)
    requires EscalationToken(hash, path1, e1).Some? && EscalationToken(hash, path2, e2).Some?
    ensures EscalationToken(hash, path1, e1) == EscalationToken(hash, path2, e2)
            <==> path1 == path2 && EscalatedText(e1) == EscalatedText(e2)
  {
  }

  /**
   * Where the hash does not collide on the two writes and no rule or message holds the separator, two
   * tokens are equal exactly when the writes have the same path and escalate the same rules on the
   * same lines with the same messages.
   */
  lemma TokenIdentifies(hash: Hasher, path1: string, e1: Evaluation, path2: string, e2: Evaluation)
    requires NoTokenCollision(hash, path1, e1, path2, e2)
    requires Text.Free(EscalatedParts(e1), '|') && Text.Free(EscalatedParts(e2), '|')
    requires ValidFindings(EscalatedFindings(e1)) && ValidFindings(EscalatedFindings(e2))
    requires EscalationToken(hash, path1, e1).Some? && EscalationToken(hash, path2, e2).Some?
    ensures EscalationToken(hash, path1, e1) == EscalationToken(hash, path2, e2)
            <==> path1 == path2 && Keys(EscalatedFindings(e1)) == Keys(EscalatedFindings(e2))
  {
    TokenIsText(hash, path1, e1, path2, e2);
    SamePartsIffSameKeys(EscalatedFindings(e1), EscalatedFindings(e2));
    SameTextIffSameParts(EscalatedParts(e1), EscalatedParts(e2));
  }

  lemma SameTextIffSameParts(p1: seq<string>, p2: seq<string>)
    requires p1 != [] && p2 != [] && Text.Free(p1, '|') && Text.Free(p2, '|')
    ensures Text.Join(Text.Sort(p1), '|') == Text.Join(Text.Sort(p2), '|') <==> multiset(p1) == multiset(p2)
  {
    FreeAfterSort(p1, '|');
    FreeAfterSort(p2, '|');
    if multiset(p1) == multiset(p2) {
      Text.SortSorts(p1);
      Text.SortSorts(p2);
      Text.SortedIsUnique(Text.Sort(p1), Text.Sort(p2));
    } else if Text.Join(Text.Sort(p1), '|') == Text.Join(Text.Sort(p2), '|') {
      Text.JoinIsInjective(Text.Sort(p1), Text.Sort(p2), '|');
    }
  }

  /** A finding that spells another one out behind a separator in its message. */
  function Spelled(f: Finding, other: Finding): Finding {
    f.(message := f.message + "|" + Part(other))
  }

  /** Without that condition one finding can pass for two: the text that is hashed is the same. */
  lemma SeparatorForgesText(f: Finding, h: Finding)
    requires Text.Leq(Part(f), Part(h))
    ensures FindingsText([Spelled(f, h)]) == FindingsText([f, h])
    ensures Keys([Spelled(f, h)]) != Keys([f, h])
  {
    var p, q := Part(f), Part(h);
    assert Part(Spelled(f, h)) == p + "|" + q;
    assert Parts([Spelled(f, h)]) == [p + "|" + q] && Parts([f, h]) == [p, q];
    SortOne(p + "|" + q);
    SortTwo(p, q);
    Baseline.KeyBagSize(KeyOf, [Spelled(f, h)]);
    Baseline.KeyBagSize(KeyOf, [f, h]);
  }

  lemma SortOne(p: string)
    ensures Text.Sort([p]) == [p] && Text.Join([p], '|') == p
  {
    assert [p][1..] == [];
  }

  lemma SortTwo(p: string, q: string)
    requires Text.Leq(p, q)
    ensures Text.Sort([p, q]) == [p, q] && Text.Join([p, q], '|') == p + "|" + q
  {
    assert [p, q][1..] == [q];
    SortOne(q);
  }

  lemma FreeAfterSort(parts: seq<string>, c: char)
    requires Text.Free(parts, c)
    ensures Text.Free(Text.Sort(parts), c) && multiset(Text.Sort(parts)) == multiset(parts)
    ensures parts != [] ==> Text.Sort(parts) != []
  {
    Text.SortSorts(parts);
    var sorted := Text.Sort(parts);
    assert |multiset(sorted)| == |sorted| && |multiset(parts)| == |parts|;
    forall i | 0 <= i < |sorted|
      ensures c !in sorted[i]
    {
      assert sorted[i] in multiset(sorted);
      var j :| 0 <= j < |parts| && parts[j] == sorted[i];
    }
  }

  /** A write denied only by escalations always has a token to approve. */
  lemma EscalatedWriteHasToken(
    env: Env, p: AgentPolicy, path: string, findings: seq<Finding>, provenance: Provenance, covered: bool)
    requires var e := Evaluated(env.globs, p, path, findings, provenance, covered);
             e.IsDenied() && !e.HasHardDeny()
    ensures EscalationToken(env.hash, path, Evaluated(env.globs, p, path, findings, provenance, covered)).Some?
  {
    var e := Evaluated(env.globs, p, path, findings, provenance, covered);
    VerdictIff(env.globs, p, path, findings, provenance, covered);
    var v :| v in e.violations && v.enforcement in {Deny, Escalate};
    EscalationHasFinding(e.violations, v);
  }

  lemma {:induction false} EscalationHasFinding(violations: seq<Violation>, v: Violation)
    requires v in violations && v.enforcement == Escalate && v.finding.Some?
    ensures FindingsBehind(Escalations(violations)) != []
  {
    var rest, last := violations[..|violations| - 1], violations[|violations| - 1];
    if last.enforcement == Escalate {
      FindingsBehindConcat(Escalations(rest), [last]);
    }
    if v != last {
      assert violations == rest + [last];
      EscalationHasFinding(rest, v);
    } else {
      assert FindingsBehind([v]) == [v.finding.value];
    }
  }

  // ---------------------------------------------------------------------------
  // One judgement
  // ---------------------------------------------------------------------------

  /** The persisted state, file by file. */
  datatype Store = Store(
    touched: set<string>, approvals: set<string>, breaker: Counts, loops: LoopState, pending: set<string>)

  const EMPTY_STORE := Store({}, {}, map[], LoopState(None, 0), {})

  function ProvenanceFor(touched: set<string>, path: string): Provenance {
    if path in touched then AiTouched else Unestablished
  }

  /** The policy's view of an attempt, before approvals. */
  function EvaluationAt(env: Env, p: AgentPolicy, st: Store, a: Attempt): Evaluation {
    Evaluated(env.globs, p, a.path, a.findings, ProvenanceFor(st.touched, a.path), a.covered)
  }

  function WithoutEscalations(violations: seq<Violation>): seq<Violation> {
    if violations == [] then []
    else
      var last, rest := violations[|violations| - 1], WithoutEscalations(violations[..|violations| - 1]);
      if last.enforcement == Escalate then rest else rest + [last]
  }

  /** Whether a pending approval lifts the denial of an attempt. */
  predicate Approved(env: Env, st: Store, a: Attempt, e: Evaluation) {
    && e.IsDenied() && !e.HasHardDeny()
    && EscalationToken(env.hash, a.path, e).Some?
    && EscalationToken(env.hash, a.path, e).value in st.approvals
  }

  function JudgeStep(env: Env, p: AgentPolicy, st: Store, a: Attempt): (Store, Verdict) {
    var e := EvaluationAt(env, p, st, a);
    var st1 := st.(touched := st.touched + {a.path});
    if Approved(env, st, a, e) then
      (st1.(approvals := st.approvals - {EscalationToken(env.hash, a.path, e).value}),
       FromEvaluation(a.path, Evaluation(WithoutEscalations(e.violations))))
    else (st1, FromEvaluation(a.path, e))
  }

  function BreakerStep(st: Store, v: Verdict): (Store, set<RuleId>) {
    (st.(breaker := Recorded(st.breaker, EvaluationOf(v))), TrippedRules(st.breaker, EvaluationOf(v)))
  }

  function LoopTracked(env: Env, st: Store, w: Write): Store {
    st.(loops := LoopStep(env.hash, st.loops, w))
  }

  function WriteLanded(env: Env, p: AgentPolicy, st: Store, path: string): Store
    requires p.Valid()
  {
    if TestRequiredReason(env.globs, p, path).Some? then st.(pending := st.pending + {path}) else st
  }

  // ---------------------------------------------------------------------------
  // Test runs
  // ---------------------------------------------------------------------------

  predicate OccursAt(text: string, part: string, i: nat) {
    i + |part| <= |text| && text[i..i + |part|] == part
  }

  predicate Contains(text: string, part: string) {
    exists i :: 0 <= i <= |text| && OccursAt(text, part, i)
  }

  predicate MatchesTestPattern(env: Env, command: string, patterns: seq<string>) {
    exists i :: 0 <= i < |patterns| && patterns[i] != "" && Contains(env.lower(command), env.lower(patterns[i]))
  }

  const EXIT_CODE_KEYS := ["exit_code", "exitCode", "returncode", "return_code", "status", "code"]

  /** The exit code under the first known key that carries an integer. */
  function ExitCode(response: map<string, int>, keys: seq<string>): Option<int> {
    if keys == [] then None
    else if keys[0] in response then Some(response[keys[0]])
    else ExitCode(response, keys[1..])
  }

  /** A command that counts as a test run and did not visibly fail. */
  predicate Credits(env: Env, p: AgentPolicy, command: string, response: map<string, int>) {
    && MatchesTestPattern(env, command, p.testCommandPatterns)
    && ExitCode(response, EXIT_CODE_KEYS) in {None, Some(0)}
  }

  function BashRan(env: Env, p: AgentPolicy, st: Store, command: string, response: map<string, int>): Store {
    if Credits(env, p, command, response) then st.(pending := {}) else st
  }

  /** The written paths that still need a test run under the policy in force now. */
  function Unproven(env: Env, p: AgentPolicy, st: Store): set<string>
    requires p.Valid()
  {
    set path | path in st.pending && TestRequiredReason(env.globs, p, path).Some?
  }

  // ---------------------------------------------------------------------------
  // Events
  // ---------------------------------------------------------------------------

  /**
   * Each event carries the policy loaded for it: the file may change in between. The built-in agent
   * names the file as `given` to the loop guard, and as the attempt's path to the policy.
   */
  datatype Event =
    | Approve(token: string)
    | HookWrite(policy: AgentPolicy, landed: bool, attempt: Attempt)
    | HookWithoutFile
    | CheckFile(policy: AgentPolicy, attempt: Attempt)
    | AgentWrite(policy: AgentPolicy, given: string, attempt: Attempt)
    | BashRun(policy: AgentPolicy, command: string, response: map<string, int>)
    | Stop(policy: AgentPolicy)
  {
    predicate Valid() {
      match this
      case Approve(_) => true
      case HookWithoutFile => true
      case BashRun(p, _, _) => p.Valid()
      case Stop(p) => p.Valid()
      case HookWrite(p, _, a) => p.Valid() && a.Valid()
      case CheckFile(p, a) => p.Valid() && a.Valid()
      case AgentWrite(p, _, a) => p.Valid() && a.Valid()
    }
  }

  datatype Output =
    | Nothing
    | Judged(verdict: Verdict, tripped: set<RuleId>, loopCount: nat)
    | StopBlocked(paths: set<string>)

  /** A write event judges in an order of its own, but the parts are always the same. */
  function Step(env: Env, st: Store, ev: Event): (Store, Output)
    requires ev.Valid()
  {
    match ev
    case Approve(token) => (st.(approvals := st.approvals + {token}), Nothing)
    case HookWrite(p, landed, a) =>
      if !p.enabled then var (st1, tripped) := BreakerStep(st, Silent); (st1, Judged(Silent, tripped, 0))
      else
        var st1 := LoopTracked(env, st, a.AsWrite(a.path));
        var (st2, v) := JudgeStep(env, p, st1, a);
        var st3 := if landed then WriteLanded(env, p, st2, a.path) else st2;
        var (st4, tripped) := BreakerStep(st3, v);
        (st4, Judged(v, tripped, st1.loops.count))
    case HookWithoutFile => var (st1, tripped) := BreakerStep(st, Silent); (st1, Judged(Silent, tripped, 0))
    case CheckFile(p, a) =>
      if !p.enabled then (st, Nothing)
      else
        var st1 := LoopTracked(env, st, a.AsWrite(a.path));
        var (st2, v) := JudgeStep(env, p, st1, a);
        var (st3, tripped) := BreakerStep(st2, v);
        (st3, Judged(v, tripped, st1.loops.count))
    case AgentWrite(p, given, a) =>
      var (st1, v) := JudgeStep(env, p, st, a);
      var (st2, tripped) := BreakerStep(st1, v);
      var st3 := LoopTracked(env, st2, a.AsWrite(given));
      (st3, Judged(v, tripped, st3.loops.count))
    case BashRun(p, command, response) =>
      (if p.enabled then BashRan(env, p, st, command, response) else st, Nothing)
    case Stop(p) =>
      (st, if p.enabled && Unproven(env, p, st) != {} then StopBlocked(Unproven(env, p, st)) else Nothing)
  }

  // ---------------------------------------------------------------------------
  // What a command run does, told without the matcher
  // ---------------------------------------------------------------------------

  predicate IsBetween(text: string, before: string, part: string, after: string) {
    text == before + part + after
  }

  lemma ContainsIff(text: string, part: string)
    ensures Contains(text, part) <==> exists before, after :: IsBetween(text, before, part, after)
  {
    if i :| 0 <= i <= |text| && OccursAt(text, part, i) {
      assert IsBetween(text, text[..i], part, text[i + |part|..]);
    }
    if before, after :| IsBetween(text, before, part, after) {
      assert text[|before|..|before| + |part|] == part;
      assert OccursAt(text, part, |before|);
    }
  }

  /** Some configured text occurs in the command, whatever surrounds it and whatever the case. */
  ghost predicate RunsTests(env: Env, p: AgentPolicy, command: string) {
    exists q, before, after ::
      q in p.testCommandPatterns && q != "" && IsBetween(env.lower(command), before, env.lower(q), after)
  }

  lemma MatchesIff(env: Env, p: AgentPolicy, command: string)
    ensures MatchesTestPattern(env, command, p.testCommandPatterns) <==> RunsTests(env, p, command)
  {
    forall q
      ensures Contains(env.lower(command), env.lower(q))
              <==> exists before, after :: IsBetween(env.lower(command), before, env.lower(q), after)
    {
      ContainsIff(env.lower(command), env.lower(q));
    }
  }

  /** The first of the keys that carries an integer carries this one. */
  predicate FirstCode(response: map<string, int>, keys: seq<string>, code: int) {
    exists i :: 0 <= i < |keys| && keys[i] in response && response[keys[i]] == code
                && forall j :: 0 <= j < i ==> keys[j] !in response
  }

  lemma {:induction false} ExitCodeIff(response: map<string, int>, keys: seq<string>)
    ensures ExitCode(response, keys) == None <==> forall i :: 0 <= i < |keys| ==> keys[i] !in response
    ensures forall code :: ExitCode(response, keys) == Some(code) <==> FirstCode(response, keys, code)
  {
    if keys != [] {
      ExitCodeIff(response, keys[1..]);
      assert keys == [keys[0]] + keys[1..];
      forall code | keys[0] !in response
        ensures FirstCode(response, keys, code) <==> FirstCode(response, keys[1..], code)
      {
        FirstCodeLater(response, keys, code);
      }
    }
  }

  lemma FirstCodeLater(response: map<string, int>, keys: seq<string>, code: int)
    requires keys != [] && keys[0] !in response
    ensures FirstCode(response, keys, code) <==> FirstCode(response, keys[1..], code)
  {
    var rest := keys[1..];
    assert forall i :: 0 < i < |keys| ==> keys[i] == rest[i - 1];
    if i :| 0 <= i < |keys| && keys[i] in response && response[keys[i]] == code
            && forall j :: 0 <= j < i ==> keys[j] !in response {
      assert rest[i - 1] in response && forall j :: 0 <= j < i - 1 ==> rest[j] == keys[j + 1];
    }
    if i :| 0 <= i < |rest| && rest[i] in response && response[rest[i]] == code
            && forall j :: 0 <= j < i ==> rest[j] !in response {
      assert keys[i + 1] in response && forall j :: 0 < j < i + 1 ==> keys[j] == rest[j - 1];
    }
  }

  /**
   * A command run empties the ledger exactly when, under an enabled policy, the command contains a
   * non-empty configured text and its response shows no exit code or shows zero first; otherwise it
   * changes nothing.
   */
  lemma BashRunClearsIff(env: Env, p: AgentPolicy, st: Store, command: string, response: map<string, int>)
    requires p.Valid()
    ensures var keys := ["exit_code", "exitCode", "returncode", "return_code", "status", "code"];
            var passed := (forall i :: 0 <= i < 6 ==> keys[i] !in response) || FirstCode(response, keys, 0);
            Step(env, st, BashRun(p, command, response)).0
            == if p.enabled && RunsTests(env, p, command) && passed then st.(pending := {}) else st
  {
    MatchesIff(env, p, command);
    ExitCodeIff(response, EXIT_CODE_KEYS);
  }

  // ---------------------------------------------------------------------------
  // The state files
  // ---------------------------------------------------------------------------

  /** The files the guardrail keeps in the repository root. */
  class HookStore {
    var touched: set<string>
    var approvals: set<string>
    var breakerFile: seq<Entry>
    var loopFile: LoopState
    var pendingPaths: set<string>

    ghost predicate Valid()
      reads this
    {
      DistinctRules(breakerFile) && forall e :: e in breakerFile ==> IsRuleId(e.rule)
    }

    ghost function Snapshot(): Store
      reads this
    {
      Store(touched, approvals, FromEntries(breakerFile), loopFile, pendingPaths)
    }

    constructor ()
      ensures Valid() && Snapshot() == EMPTY_STORE
    {
      touched, approvals, breakerFile, loopFile, pendingPaths := {}, {}, [], LoopState(None, 0), {};
    }

    method ApproveEscalation(token: string)
      requires Valid()
      modifies this`approvals
      ensures Valid() && Snapshot() == old(Snapshot()).(approvals := old(approvals) + {token})
    {
      approvals := approvals + {token};
    }

    method RecordProvenanceTouch(path: string)
      requires Valid()
      modifies this`touched
      ensures Valid() && Snapshot() == old(Snapshot()).(touched := old(touched) + {path})
    {
      if path !in touched {
        touched := touched + {path};
      }
    }

    /** Reads the counts back, folds the verdict in and writes them out again. */
    method TrackCircuitBreaker(v: Verdict) returns (tripped: set<RuleId>)
      requires Valid()
      requires forall r :: r in BlockedRules(EvaluationOf(v)) ==> IsRuleId(r)
      modifies this`breakerFile
      ensures Valid() && (Snapshot(), tripped) == BreakerStep(old(Snapshot()), v)
    {
      var breaker := Breaker.Load(breakerFile);
      tripped := breaker.Record(EvaluationOf(v));
      breakerFile := breaker.Save();
      ReloadIsIdentity(breakerFile, breaker.consecutiveDenials);
    }

    method TrackLoopGuard(env: Env, w: Write) returns (count: nat)
      requires Valid()
      modifies this`loopFile
      ensures Valid() && Snapshot() == LoopTracked(env, old(Snapshot()), w) && count == loopFile.count
    {
      var signature := env.hash(w.path, w.content);
      count := if loopFile.signature == Some(signature) then loopFile.count + 1 else 1;
      loopFile := LoopState(Some(signature), count);
    }

    method RecordExecutionGateWrite(env: Env, p: AgentPolicy, path: string)
      requires Valid() && p.Valid()
      modifies this`pendingPaths
      ensures Valid() && Snapshot() == WriteLanded(env, p, old(Snapshot()), path)
    {
      if TestRequiredReason(env.globs, p, path).None? {
        return;
      }
      if path !in pendingPaths {
        pendingPaths := pendingPaths + {path};
      }
    }

    method RecordBashTestRun(env: Env, p: AgentPolicy, command: string, response: map<string, int>)
      requires Valid()
      modifies this`pendingPaths
      ensures Valid() && Snapshot() == BashRan(env, p, old(Snapshot()), command, response)
    {
      if !MatchesTestPattern(env, command, p.testCommandPatterns) {
        return;
      }
      var code := ExitCode(response, EXIT_CODE_KEYS);
      if code.Some? && code.value != 0 {
        return;
      }
      pendingPaths := {};
    }

    /** Evaluates a write, records the touch and consumes a matching approval. */
    method Judge(env: Env, p: AgentPolicy, a: Attempt) returns (v: Verdict)
      requires Valid() && p.Valid()
      modifies this`touched, this`approvals
      ensures Valid() && (Snapshot(), v) == JudgeStep(env, p, old(Snapshot()), a)
    {
      var provenance := ProvenanceFor(touched, a.path);
      var e := EvaluateWithEvidence(env.globs, p, a.path, a.findings, provenance, a.covered);
      RecordProvenanceTouch(a.path);
      v := FromEvaluation(a.path, e);
      if !v.Denial? {
        return;
      }
      if e.HasHardDeny() {
        return;
      }
      var token := EscalationToken(env.hash, a.path, e);
      if token.None? || token.value !in approvals {
        return;
      }
      approvals := approvals - {token.value};
      var residual := DropEscalations(e.violations);
      v := FromEvaluation(a.path, Evaluation(residual));
    }

    /** One invocation, event by event. */
    method Handle(env: Env, ev: Event) returns (out: Output)
      requires Valid() && ev.Valid()
      modifies this
      ensures Valid() && (Snapshot(), out) == Step(env, old(Snapshot()), ev)
    {
      match ev
      case Approve(token) =>
        ApproveEscalation(token);
        out := Nothing;
      case HookWrite(p, landed, a) => out := HandleHookWrite(env, p, landed, a);
      case HookWithoutFile =>
        var tripped := TrackCircuitBreaker(Silent);
        out := Judged(Silent, tripped, 0);
      case CheckFile(p, a) => out := HandleCheck(env, p, a);
      case AgentWrite(p, given, a) => out := HandleAgentWrite(env, p, given, a);
      case BashRun(p, command, response) =>
        if p.enabled {
          RecordBashTestRun(env, p, command, response);
        }
        out := Nothing;
      case Stop(p) =>
        var unproven := set path | path in pendingPaths && TestRequiredReason(env.globs, p, path).Some?;
        out := if p.enabled && unproven != {} then StopBlocked(unproven) else Nothing;
    }

    /** `PreToolUse` and `PostToolUse` on a file: loop alarm, judgement, execution ledger, breaker. */
    method HandleHookWrite(env: Env, p: AgentPolicy, landed: bool, a: Attempt) returns (out: Output)
      requires Valid() && p.Valid() && a.Valid()
      modifies this
      ensures Valid() && (Snapshot(), out) == Step(env, old(Snapshot()), HookWrite(p, landed, a))
    {
      if !p.enabled {
        var tripped := TrackCircuitBreaker(Silent);
        return Judged(Silent, tripped, 0);
      }
      var count := TrackLoopGuard(env, a.AsWrite(a.path));
      JudgedRulesAreValid(env, p, Snapshot(), a);
      var v := Judge(env, p, a);
      if landed {
        RecordExecutionGateWrite(env, p, a.path);
      }
      var tripped := TrackCircuitBreaker(v);
      return Judged(v, tripped, count);
    }

    /** `hook check`: as above, but nothing at all happens under a disabled policy. */
    method HandleCheck(env: Env, p: AgentPolicy, a: Attempt) returns (out: Output)
      requires Valid() && p.Valid() && a.Valid()
      modifies this
      ensures Valid() && (Snapshot(), out) == Step(env, old(Snapshot()), CheckFile(p, a))
    {
      if !p.enabled {
        return Nothing;
      }
      var count := TrackLoopGuard(env, a.AsWrite(a.path));
      JudgedRulesAreValid(env, p, Snapshot(), a);
      var v := Judge(env, p, a);
      var tripped := TrackCircuitBreaker(v);
      return Judged(v, tripped, count);
    }

    /** A write of the built-in agent: judgement, breaker, loop alarm. */
    method HandleAgentWrite(env: Env, p: AgentPolicy, given: string, a: Attempt) returns (out: Output)
      requires Valid() && p.Valid() && a.Valid()
      modifies this
      ensures Valid() && (Snapshot(), out) == Step(env, old(Snapshot()), AgentWrite(p, given, a))
    {
      JudgedRulesAreValid(env, p, Snapshot(), a);
      var v := Judge(env, p, a);
      var tripped := TrackCircuitBreaker(v);
      var count := TrackLoopGuard(env, a.AsWrite(given));
      return Judged(v, tripped, count);
    }
  }

  method DropEscalations(violations: seq<Violation>) returns (residual: seq<Violation>)
    ensures residual == WithoutEscalations(violations)
  {
    residual := [];
    for i := 0 to |violations|
      invariant residual == WithoutEscalations(violations[..i])
    {
      assert violations[..i + 1][..i] == violations[..i];
      if violations[i].enforcement != Escalate {
        residual := residual + [violations[i]];
      }
    }
    assert violations[..|violations|] == violations;
  }

  lemma {:induction false} WithoutEscalationsIff(violations: seq<Violation>, v: Violation)
    ensures v in WithoutEscalations(violations) <==> v in violations && v.enforcement != Escalate
  {
    if violations != [] {
      WithoutEscalationsIff(violations[..|violations| - 1], v);
    }
  }

  /** The residual keeps the order of what it keeps. */
  lemma {:induction false} ResidualConcat(a: seq<Violation>, b: seq<Violation>)
    ensures WithoutEscalations(a + b) == WithoutEscalations(a) + WithoutEscalations(b)
  {
    if b == [] {
      assert a + b == a;
    } else {
      assert (a + b)[..|a + b| - 1] == a + b[..|b| - 1];
      ResidualConcat(a, b[..|b| - 1]);
    }
  }

  /** The breaker only ever sees rules of findings, so what it stores can be read back. */
  lemma JudgedRulesAreValid(env: Env, p: AgentPolicy, st: Store, a: Attempt)
    requires a.Valid()
    ensures forall r :: r in BlockedRules(EvaluationOf(JudgeStep(env, p, st, a).1)) ==> IsRuleId(r)
  {
    var e := EvaluationAt(env, p, st, a);
    var judged := EvaluationOf(JudgeStep(env, p, st, a).1);
    forall v | v in judged.violations && v.finding.Some?
      ensures IsRuleId(v.finding.value.rule)
    {
      WithoutEscalationsIff(e.violations, v);
      ViolationIff(env.globs, p, a.path, a.findings, ProvenanceFor(st.touched, a.path), a.covered, v);
    }
  }
}
