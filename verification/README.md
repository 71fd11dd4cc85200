# The agent guardrail, verified

vord stands between a coding agent and the repository it edits. This project models the parts whose
behaviour is only visible over time and proves what they keep:

- **The guardrail** (`Policy`, `Breaker`, `Loops`, `Hook`, `HookHistory`). A policy judges each
  proposed write; five small state files remember who touched a path, which escalations a human
  approved, how long a rule has been denied in a row, how often the same write came back, and which
  written paths no test run has covered. `Hook.Step` is the labelled transition system over its
  events, `Hook.HookStore` the object that performs them, `HookHistory` the theorems over whole runs.
- **The late-feedback watch** (`Feedback`, `WatchHistory`, `Triage`). A timed polling machine with
  capped backoff, a settle window and a failure streak. `WatchHistory.Answer` states what a watch must
  say from the polls alone; the machine is proved to say exactly that, and every theorem about
  termination, time, silence and items is proved of it. `Triage` chains watches through the
  persisted ledgers.
- **Baseline comparison** (`Baseline`). Two independently written greedy decrement loops, both proved
  to be multiset difference and then proved to agree with each other.
- **Two transformations** (`Blame`, `BlameRoundTrip`, `HookInstall`). Parsing `git blame --porcelain`
  inverts the rendering of the section "THE PORCELAIN FORMAT" of git-blame(1); merging hooks into a
  settings file is idempotent and preserving.
- **The run budget** (`Budget`), with the ceiling it does and does not enforce.

The stateful parts follow one pattern. A class or a method with a loop has the source's own form and is
proved against a function of the old state (`Step`, `Surplus`, `Parsed`, ...). The lemmas are about that
function and never mention the loop. `Foundations` and `Text` hold what several parts share: rule
ids and severities, run lengths, decimal numbers, sorting and joining.

Globs, the hasher and lower-casing are parameters (`Policy.Globs`, `Hook.Env`): every theorem holds for
all of them. Assumptions about them appear only where they are needed: that the hash does not collide on the
writes at hand (`TokenIdentifies`, `GuardsAgree`) and that an empty glob set builds (`ScopeCanSoften`).

## Where the code says less than its documentation

- The comments in core/agent-policy/src/lib.rs:343-350 and bin/cli/src/hook.rs:95 say that
  `[agent.ai_touched]` only ever tightens. Parsing does not enforce it, and `judge` marks a path
  AI-touched even when it denies the write, so a configuration that loosens lets the second attempt
  through (`HookHistory.LoosenedRetryPasses`). `HookHistory.RefusalsPersistIffTightening` shows that tightening
  is exactly the condition.
- README.md:483-485 says an approval authorises one byte-identical retry. The token is computed from
  the path and the text of the escalated findings. `HookHistory.ApprovalLetsThroughIff` says exactly which
  writes an approval lets through, `HookHistory.ApprovedForOtherContent` shows one with other content. Given
  a hash that does not collide on the two writes, the token means the path and the findings
  (`Hook.TokenIdentifies`) as long as no rule or message holds the separator `|`; without that condition an
  approval of one finding can serve for two others (`HookHistory.ApprovedForOtherFindings`). The approved
  retry itself can still be refused: `HookHistory.ApprovedRetryRefused` shows an attempt,
  `HookHistory.ApprovedRetryIff` gives the exact condition for one, `HookHistory.ApprovedRetriesPassIff` for a policy.
- bin/cli/src/hook.rs:400-404 says that retrying a write once or twice never trips the loop alarm. A hook-hosted
  write that lands is judged before and after it, and each judgement counts, so the first retry of a landed write
  trips it: `HookHistory.LandedWritesCountTwice`, `HookHistory.FirstRetryOfLandedWriteTrips`.
- The session's own repeat guard (core/agent/src/runtime.rs:524-545) is told of accepted writes only, the persisted
  one (bin/cli/src/agent.rs:62-63) of every judged write. They count alike on one sequence (`Loops.GuardsAgreeIff`)
  and over a run in which nothing is refused (`HookHistory.AgentGuardsAgree`); a refusal can put either one ahead:
  `HookHistory.RefusedRetriesUnseen`, `HookHistory.RefusalRestartsPersisted`.
- core/agent/src/budget.rs:71-72 says a run never issues the request that would take it past a ceiling.
  The cost of a turn is not known when the check is made. `Budget.CeilingHoldsIff` says for which
  budgets the token ceiling is never crossed, `Budget.OneTurnOverruns` how little crosses it.
- bin/cli/src/hook_install.rs:216-236 explains why `Edit|Write` is looked for loosely. On an event that
  already runs the command for `Bash` only, that check keeps the `Edit|Write` group from ever being added:
  `HookInstall.WritesGuardedIff`, with the settings in `HookInstall.BashHookHidesWrites`.
- A role scope never lifts a denial (`Policy.ScopeIsMonotone`), but can turn a hard one into one a human may
  approve: `Policy.ScopeSoftensExactly` for a finding, `Policy.ScopeMakesApprovableIff` for a write,
  `Policy.ScopeCanSoften` for an example.
- A watch that gives up on failures has already put its pending batch in the ledger, so nothing will ever
  report those items. `WatchHistory.ReportsAllOrNothing` says when, `WatchHistory.SeenThenFailuresIsLost`
  shows a history, `Triage.LostItemsStayLost` says for how long.
- Two items with one id inside one poll are both reported (`WatchHistory.DuplicateIdInOnePoll`). An id is
  reported once exactly when no reporting watch sees one poll repeat a new id: `Triage.NothingReportedTwice`.
- With a zero first or maximum delay and a window above zero a silent watch never settles.
  `WatchHistory.AlwaysSettlesIff` says that this is the only exception: with positive delays, or with an empty
  window, every watch that sees finitely many new ids settles within the bound.

## Model

| member | source | states |
|---|---|---|
| Policy.CompileTable | core/agent-policy/src/lib.rs:514-560 | compiling a glob table succeeds exactly when every pattern is a glob and the set builds, names the first pattern that is none, and leaves index i of the glob set naming entry i of the configuration |
| Policy.MatchIndices | core/agent-policy/src/lib.rs:629-631 | the indices of matching patterns are exactly the matching ones, each once, ascending |
| Policy.IndicesNameHits | core/agent-policy/src/lib.rs:629-639 | looking matched indices up in the metadata yields exactly the configured entries that match, in configuration order |
| Policy.DenyPaths | core/agent-policy/src/lib.rs:629-639 | one denial per matching entry, in order |
| Policy.EvaluateWithProvenance | core/agent-policy/src/lib.rs:615-680 | the loop over findings produces the evaluation function the lemmas below are about |
| Policy.EvaluateWithEvidence | core/agent-policy/src/lib.rs:697-722 | adds one denial per matching required pattern, unless disabled or covered by a scenario |
| Policy.TestRequiredReason | core/agent-policy/src/lib.rs:738-743 | an entry is returned exactly when some entry matches, and it is the first that does |
| Policy.ViolationIff | core/agent-policy/src/lib.rs:615-722 | a violation is in an evaluation exactly when it is a path denial for a matching entry or the judgement of a reported finding that trips the policy |
| Policy.VerdictIff | core/agent-policy/src/lib.rs:139-178 | denied, hard-denied and escalated each told from the path, the findings and the rule lists; every escalation carries a finding |
| Policy.ThresholdDeniesIff | core/profiles/src/lib.rs:67-75 | on a path no glob denies, a finding of a rule on no list is denied exactly when its severity stands no earlier in info, minor, major, critical, blocker than the threshold for the provenance |
| Policy.JudgementTable | core/agent-policy/src/lib.rs:641-677 | which violation a finding becomes, enforcement and cause, from the lists and the threshold: advisory outranks blocking, blocking outranks escalation |
| Policy.EvaluationOrder | core/agent-policy/src/lib.rs:615-722 | protected paths come first, then findings, then missing evidence |
| Policy.BackslashIsSlash | core/agent-policy/src/lib.rs:628 | a path with backslashes is judged as the same path with slashes |
| Policy.PlainPathDeniedIff | core/agent-policy/src/lib.rs:628-639 | without findings a path with no backslash is denied exactly when the path as written matches an entry |
| Policy.OneViolationPerTrippingFinding | core/agent-policy/src/lib.rs:641-677 | the violations with a finding are the tripping findings, one each, in report order |
| Policy.EscalationsIgnoreProvenance | core/agent-policy/src/lib.rs:591-670 | provenance moves the threshold only, so the escalated part of an evaluation never depends on it |
| Policy.TighteningKeepsDenials | core/agent-policy/src/lib.rs:591-596 | when the AI-touched threshold is at least as strict, every denial, hard denial and blocked rule survives the path becoming AI-touched |
| Policy.BlockedRulesIff | core/agent-policy/src/lib.rs:252-256 | the rules an evaluation blocks on are exactly those of its blocking findings, whether denied or escalated |
| Policy.AddMissing | core/agent-policy/src/lib.rs:791-801 | the base list stays in front and exactly the new rules are added |
| Policy.WithRoleScope | core/agent-policy/src/lib.rs:767-818 | layering a scope: the recompiled path table with its metadata aligned, the two rule lists extended, or the failure of the first bad pattern or of the set |
| Policy.ScopeKeepsTheRest | core/agent-policy/src/lib.rs:803-817 | a scoped policy has the base paths and rules in front and everything else of the base policy unchanged |
| Policy.ScopesComposeIff | core/agent-policy/src/lib.rs:767-818 | scoping by one scope and then another is scoping by their concatenation, failures included, exactly unless the intermediate set alone fails to build |
| Policy.ScopeIsMonotone | core/agent-policy/src/lib.rs:760-818 | whatever the base policy denies, for any path, findings, provenance and evidence, the scoped policy denies |
| Policy.ScopeAddsExactly | core/agent-policy/src/lib.rs:767-818 | a scoped policy denies exactly what the base denies, the scope's paths, and findings of the scope's rules that are not advisory |
| Policy.ScopeSoftensExactly | core/agent-policy/src/lib.rs:641-677 | a finding denied under the base policy is escalated under the scoped one exactly when it is reported, only the threshold denied it, the scope newly escalates its rule, and neither blocking list names it |
| Policy.ScopeMakesApprovableIff | core/agent-policy/src/lib.rs:767-818 | a write with a hard denial is denied with none left under a scope exactly when no path denies it, every finding that denied it is softened, and no finding is of a non-advisory rule the scope blocks |
| Policy.ScopeCanSoften | core/agent-policy/src/lib.rs:767-818 | such writes exist: any finding at the threshold under a scope that escalates its rule |
| Policy.ScopesCommute | core/agent-policy/src/lib.rs:767-818 | swapping two scopes permutes the violations and changes nothing else, and succeeds exactly when the reordered set builds |
| Profiles.RuleIdIff | core/profiles/src/lib.rs:44-55 | a rule id is two non-empty parts of lower-case letters, digits and hyphens around a colon |
| Breaker.CircuitBreaker.Record | core/agent-policy/src/lib.rs:252-270 | after the in-place retain and increment the map holds exactly the rules blocked now, each one above its old count (one from zero), and the tripped rules are those at three or more |
| Breaker.CircuitBreaker.Save | bin/cli/src/hook.rs:257-264 | the state file lists every rule once with its count, in any order |
| Breaker.Load | bin/cli/src/hook.rs:239-252 | reading the file back skips entries that are no rule ids |
| Breaker.Denied | core/agent-policy/src/lib.rs:252-256 | the rules behind the blocking violations, each once however many findings it has |
| Breaker.BlockedRulesAre | core/agent-policy/src/lib.rs:252-256 | a rule is in the set exactly when some violation that is no warning carries a finding of it |
| Breaker.ReloadIsIdentity | bin/cli/src/hook.rs:239-277 | saving the counts and loading them again changes nothing |
| Breaker.CountIsRunLength | core/agent-policy/src/lib.rs:236-270 | over every history a rule's count is the length of the longest suffix of evaluations that all block on it, and the stored rules are exactly those of the last evaluation |
| Breaker.TripsOnThirdInARow | core/agent-policy/src/lib.rs:218-270 | a rule trips exactly when this evaluation and the two before it all block on it |
| Loops.RepeatGuard.Record | core/agent/src/budget.rs:114-124 | the in-session streak after one write, saturating, and the alarm at three |
| Loops.RepeatStreakIsRunLength | core/agent/src/budget.rs:99-124 | the in-session streak is the length of the run of identical writes at the end of the history, up to saturation |
| Loops.LoopCountIsRunLength | bin/cli/src/hook.rs:461-473 | the persisted count is the length of the run of identical signatures |
| Loops.AlarmIff | core/agent/src/budget.rs:106-124 | both alarms go off exactly when the last three writes, or the last three signatures, are equal |
| Loops.GuardsAgree | bin/cli/src/hook.rs:428-473 | with no colliding neighbours both guards count alike |
| Loops.GuardsAgreeIff | bin/cli/src/hook.rs:428-473 | the two guards agree after every write of a sequence exactly when no two different neighbours share a hash |
| Budget.Ledger.RecordTurn | core/agent/src/budget.rs:58-61 | turns and tokens after one turn, saturating at their widths |
| Budget.ExhaustedIff | core/agent/src/budget.rs:71-88 | which ceiling a history of turns has reached, told from the number of turns and the tokens really used: turns outrank tokens, and the amount reported is the amount used |
| Budget.ExhaustionPersists | core/agent/src/budget.rs:58-88 | an exhausted budget stays exhausted whatever is spent on top |
| Budget.SpendingIsSum | core/agent/src/budget.rs:52-69 | the ledger holds the number of turns and the sum of all tokens, each capped by its counter's width |
| Budget.AdmittedIff | core/agent/src/runtime.rs:332-356 | a run is admitted exactly when it is within its turns and all but its last turn are under the token ceiling |
| Budget.CeilingHoldsIff | core/agent/src/budget.rs:71-88 | no admitted run is charged past the token ceiling exactly when the budget admits no turn or the ceiling is the largest counter value |
| Budget.OneTurnOverruns | core/agent/src/budget.rs:71-88 | a first turn that costs one token more than the ceiling is admitted and charged |
| Widths.WidthValues | core/agent/src/budget.rs:51-55 | the integer widths the model keeps, in decimal |
| Hook.TokenIgnoresOrder | bin/cli/src/hook.rs:343-358 | the same escalated findings give the same token in whatever order they are reported |
| Hook.UnreadIsEmpty | bin/cli/src/hook.rs:428-433 | content that could not be read counts as empty, any other as it is |
| Hook.PartReads | bin/cli/src/hook.rs:347 | the text of a finding in a token, on an example |
| Text.LeqIff | bin/cli/src/hook.rs:352 | parts are sorted by their first difference, a text before its extensions |
| Hook.PartIsInjective | bin/cli/src/hook.rs:343-348 | a part of the token text determines the rule, the line and the message, rule ids having exactly one colon |
| Hook.TokenIdentifies | bin/cli/src/hook.rs:343-358 | unless the hash collides on the two writes, and with no separator inside a part, two tokens are equal exactly when path and the bag of escalated (rule, line, message) are |
| Hook.SeparatorForgesText | bin/cli/src/hook.rs:352-357 | the condition on the separator is needed: a finding that spells another out behind one has the hashed text of both |
| Hook.EscalatedWriteHasToken | bin/cli/src/hook.rs:1723-1735 | a write denied only by escalations always has a token to approve |
| Hook.DropEscalations | bin/cli/src/hook.rs:1743-1748 | the residual of an approved write |
| Hook.WithoutEscalationsIff | bin/cli/src/hook.rs:1743-1748 | the residual holds exactly the violations that do not escalate |
| Hook.ResidualConcat | bin/cli/src/hook.rs:1743-1748 | the residual keeps the order of what it keeps |
| Hook.HookStore.ApproveEscalation | bin/cli/src/hook.rs:389-394 | adds one token and changes no other file |
| Hook.HookStore.RecordProvenanceTouch | bin/cli/src/hook.rs:139-144 | adds one path and changes no other file |
| Hook.HookStore.TrackCircuitBreaker | bin/cli/src/hook.rs:314-324 | load, record, save: the persisted counts become exactly the recorded ones |
| Hook.HookStore.TrackLoopGuard | bin/cli/src/hook.rs:461-473 | the persisted streak after one write; nothing else changes |
| Hook.HookStore.RecordExecutionGateWrite | bin/cli/src/hook.rs:1410-1418 | a path becomes pending exactly when it has to be proven by tests |
| Hook.HookStore.RecordBashTestRun | bin/cli/src/hook.rs:1424-1483 | a matching command that did not visibly fail clears the ledger; any other changes nothing |
| Hook.BashRunClearsIff | bin/cli/src/hook.rs:1424-1483 | a command run empties the ledger exactly when, under an enabled policy, the lower-cased command contains a non-empty configured text and the response carries no integer under the six keys or zero under the first that has one; otherwise it changes nothing |
| Hook.HookStore.Judge | bin/cli/src/hook.rs:1717-1755 | one judgement: evaluation under the provenance before the touch, the touch recorded whatever the verdict, at most one approval consumed |
| Hook.HookStore.Handle | bin/cli/src/hook.rs:1947-2046 | every event changes the state files and answers as the transition function says |
| Hook.HookStore.HandleHookWrite | bin/cli/src/hook.rs:1982-2046 | loop guard, judgement, execution ledger, breaker; a disabled policy still folds silence into the breaker |
| Hook.HookStore.HandleCheck | bin/cli/src/hook.rs:2058-2072 | loop guard, judgement, breaker; a disabled policy changes nothing |
| Hook.HookStore.HandleAgentWrite | bin/cli/src/agent.rs:52-69 | judgement, breaker, loop guard, the last under the path as given |
| Hook.JudgedRulesAreValid | bin/cli/src/hook.rs:239-277 | every rule the breaker stores is one it can read back |
| HookHistory.StepJudges | bin/cli/src/hook.rs:2013-2072 | however a write arrives, the judgement and the trackers act on it alike |
| HookHistory.PassesIffApproved | bin/cli/src/hook.rs:1723-1755 | a blocked attempt passes exactly when nothing denies it beyond approval and its token is stored; the token is then gone and exactly the warnings are left |
| HookHistory.AdviceIff | bin/cli/src/hook.rs:200-208 | a write that is not refused gets advice exactly when its evaluation holds a warning, and silence otherwise |
| HookHistory.ApprovalsStep | bin/cli/src/hook.rs:363-394 | what every event does to the approvals, and that a spent token was there |
| HookHistory.ApprovalsAreHistory | bin/cli/src/hook.rs:363-394 | after any run a token is stored exactly when it was stored before or approved at some point and has not been spent since |
| HookHistory.PassesNeverExceedGrants | bin/cli/src/hook.rs:1736-1740 | over every history a token lets through at most as many writes as approvals of it |
| HookHistory.AbsentUntilGranted | bin/cli/src/hook.rs:363-394 | a token not in the store stays out of it until it is approved |
| HookHistory.GrantedBetweenPasses | bin/cli/src/hook.rs:1736-1740 | between two writes let through by one token there is a fresh approval of it |
| HookHistory.ProvenanceIsHistory | bin/cli/src/hook.rs:82-144 | the provenance file is exactly the paths ever put before the policy, denied or not |
| HookHistory.RefusalChanges | bin/cli/src/hook.rs:1717-1739 | the whole state after a refused attempt |
| HookHistory.RetryIsRefused | bin/cli/src/hook.rs:1717-1739 | with a tightening threshold, a refused write is refused again in any store with the same approvals, under the same token and with no rule fewer |
| HookHistory.RefusedUntilGranted | bin/cli/src/hook.rs:1717-1739 | with a tightening threshold, a refused write is refused after any run of events that does not approve its token, and after any run at all when something denied it beyond approval |
| HookHistory.RetriesAccumulate | bin/cli/src/hook.rs:314-473 | any number of retries without an approval: all refused, same token, every first-blocked rule counted once per attempt, every identical write too |
| HookHistory.ThirdRetryTrips | bin/cli/src/hook.rs:300-473 | from the third attempt on the breaker has tripped for every rule that blocked the first, and the loop alarm with it |
| HookHistory.BlockedFindingTrips | bin/cli/src/hook.rs:300-324 | from the third attempt on both alarms are raised for the rule of any reported finding that is on the blocking or escalating list and not advisory |
| HookHistory.DenialsPersistIffTightening | core/agent-policy/src/lib.rs:338-357 | on a path no glob denies, every denial survives the path becoming AI-touched exactly when the AI-touched threshold is at least as strict |
| HookHistory.RefusalsPersistIffTightening | bin/cli/src/hook.rs:1717-1739 | every write to an untouched path no glob denies that is refused is refused on the immediate retry, exactly when the threshold tightens |
| HookHistory.LoosenedRetryPasses | bin/cli/src/hook.rs:1717-1739 | under a loosening threshold, a valid finding whose write is refused once and not refused after |
| HookHistory.ApprovedRetryIff | bin/cli/src/hook.rs:1717-1755 | an approved retry of an escalation-only write passes exactly when the path was already AI-touched or the AI-touched threshold adds no hard denial |
| HookHistory.ApproveThenRetry | bin/cli/src/hook.rs:1717-1755 | that condition holds of the run attempt, approve, identical attempt |
| HookHistory.ApprovedRetriesPassIff | bin/cli/src/hook.rs:1717-1755 | on an untouched path no glob denies, every approved identical retry of an escalation-only write passes exactly when the AI-touched threshold is not the stricter one or no valid rule can escalate |
| HookHistory.ApprovedRetryRefused | bin/cli/src/hook.rs:1717-1755 | otherwise there is an attempt denied by an escalation alone whose approved identical retry is refused |
| HookHistory.ApprovalLetsThroughIff | bin/cli/src/hook.rs:1717-1755 | which denied writes the approval of one attempt lets through: exactly those without a hard denial that share its path and escalated text (or were approved before) |
| HookHistory.ApprovalLetsThroughSameFindings | bin/cli/src/hook.rs:343-358 | with no separator inside a part, an approval lets through exactly the denied writes without a hard denial that share its path and its bag of escalated (rule, line, message), or were approved before |
| HookHistory.ApprovalIgnoresContent | bin/cli/src/hook.rs:326-358 | the retry passes or fails on the same condition whatever its content |
| HookHistory.ApprovedForOtherContent | bin/cli/src/hook.rs:326-358 | a run in which one content is refused and approved and another is let through |
| HookHistory.ApprovedForOtherFindings | bin/cli/src/hook.rs:343-358 | a run in which one finding is approved and two others are let through |
| HookHistory.ApprovedWriteClearsStreaks | bin/cli/src/hook.rs:314-324 | a write let through by an approval empties the breaker and trips nothing |
| HookHistory.StreaksAreHistory | bin/cli/src/hook.rs:314-473 | after any run from an empty store the persisted streaks are those of the history of verdicts and of writes |
| HookHistory.EveryJudgementCounts | bin/cli/src/hook.rs:461-473 | over any run of events that judge one write the persisted count is the number of judgements, on top of what it counted of that write before |
| HookHistory.LandedWritesCountTwice | bin/cli/src/hook.rs:2013-2046 | landing one write n times, judged before and after each time, counts 2n, and the next attempt is counted 2n + 1 |
| HookHistory.FirstRetryOfLandedWriteTrips | bin/cli/src/hook.rs:400-404 | so the first retry of a hook-hosted write that landed trips the loop alarm |
| HookHistory.AgentGuardsAgree | core/agent/src/runtime.rs:509-545 | over a run of the built-in agent in which no write is refused, its own guard, told of accepted writes only, and the persisted one count alike unless neighbours collide |
| HookHistory.RefusedRetriesUnseen | core/agent/src/runtime.rs:524-545 | any number of refused retries count in the persisted guard and are unseen by the other |
| HookHistory.RefusalRestartsPersisted | core/agent/src/runtime.rs:524-545 | a run in which a refused write between two identical accepted ones restarts the persisted guard only |
| HookHistory.PendingIsOutstanding | bin/cli/src/hook.rs:1410-1483 | after any run the pending set is exactly the paths written under a matching requirement with no later credited test run |
| HookHistory.StopBlocksIff | bin/cli/src/hook.rs:1494-1567 | a session end is blocked exactly when the policy then in force is enabled and still covers an outstanding path, and names exactly those paths |
| Baseline.Counts | core/agent/src/completion.rs:105-111 | the hash map of counts stands for the multiset of identities |
| Baseline.SameIdentityIff | core/agent/src/completion.rs:39-48 | two findings are the same exactly when file, rule and message agree |
| Baseline.Introduced | core/agent/src/completion.rs:113-125 | the greedy decrement loop keeps the findings past the baseline's budget |
| Baseline.SurplusIsDifference | core/agent/src/completion.rs:113-125 | what it keeps is a subsequence of the report holding exactly the multiset difference of identities |
| Baseline.Judge | core/agent/src/completion.rs:135-160 | the target is looked at first, then the regressions |
| Baseline.VerdictIff | core/agent/src/completion.rs:127-160 | done exactly when the target is gone and the identities form a sub-multiset of the baseline's; what each other verdict lists |
| Baseline.VerdictDependsOnIdentities | core/agent/src/completion.rs:39-48 | the verdict depends on the multisets of identities only |
| Baseline.MovedLinesKeepIdentities | core/agent/src/completion.rs:39-48 | changed lines and severities keep the multiset of identities |
| Baseline.ReorderedReportsSameVerdict | core/agent/src/completion.rs:105-160 | reordering either report changes neither the kind of verdict, nor the surviving occurrences or the introduced identities as bags |
| Baseline.DoneIsTransitive | core/agent/src/completion.rs:135-160 | steps that each regress nothing compose |
| Baseline.IntroducedTriangle | core/agent/src/completion.rs:115-125 | the number introduced obeys the triangle inequality |
| Baseline.IntroducedBalance | core/agent/src/completion.rs:115-125 | introduced minus removed is the change in the number of findings |
| Baseline.WholeFilePresent | bin/cli/src/hook.rs:1608-1612 | the metric rules that fired before |
| Baseline.PriorCounts | bin/cli/src/hook.rs:1614-1622 | the counts stand for the multiset of earlier (rule, message) pairs without metrics |
| Baseline.Retains | bin/cli/src/hook.rs:1624-1636 | the test inside `retain` decides and spends one finding |
| Baseline.DropPreexistingFindings | bin/cli/src/hook.rs:1607-1637 | the in-place filter keeps the findings that are news |
| Baseline.DropRefinesIntroduced | bin/cli/src/hook.rs:1607-1637 | in one file and away from the metric rules it keeps exactly what the completion check calls introduced, in the same order |
| Baseline.MetricSurvivesIffNew | bin/cli/src/hook.rs:1569-1637 | metric findings survive exactly when their rule never fired before; the whole result is a subsequence |
| Baseline.LoneFindingSurvivesIff | bin/cli/src/hook.rs:1569-1637 | a single finding survives exactly when, for the two metric rules by name, the rule did not fire before, and for any other rule no earlier finding has its rule and message |
| Baseline.StrategiesDoNotInterfere | bin/cli/src/hook.rs:1607-1637 | the metric and the other findings are filtered independently |
| Feedback.TriageLedger.Record | core/agent/src/feedback.rs:194-197 | adds one id and says whether it was new |
| Feedback.FeedbackWatch.constructor | core/agent/src/feedback.rs:255-267 | a watch starts with nothing pending, nothing waited and the ledger it was given |
| Feedback.FeedbackWatch.Observe | core/agent/src/feedback.rs:280-285 | the watch's state and answer are the step function's |
| Feedback.FeedbackWatch.OnFailure | core/agent/src/feedback.rs:287-299 | the same for a failed poll |
| Feedback.FeedbackWatch.OnObservation | core/agent/src/feedback.rs:302-328 | the same for an observation, the ledger read for the whole poll before it is written |
| Feedback.FeedbackWatch.Backoff | core/agent/src/feedback.rs:353-358 | the delay handed out and added to the saturating clock |
| WatchHistory.MachineFollowsHistory | core/agent/src/feedback.rs:242-358 | a watch that has not settled is in the state its history of polls dictates, field by field |
| WatchHistory.StepFollowsHistory | core/agent/src/feedback.rs:280-358 | the machine's answer to a poll is the answer told from the history alone |
| WatchHistory.FreshConcat | core/agent/src/feedback.rs:305-309 | the new items of a poll keep their order, each judged alone |
| WatchHistory.FreshOne | core/agent/src/feedback.rs:305-309 | a single item is new exactly when its id is not in the ledger |
| WatchHistory.IdsOfIff | core/agent/src/feedback.rs:302-313 | the ids a history has shown are exactly those of the items of its observations |
| WatchHistory.NewsConcat | core/agent/src/feedback.rs:302-313 | what is new in a longer history is what was new before, followed by what is new to the ledger by then |
| WatchHistory.LastErrorIff | core/agent/src/feedback.rs:287-291 | the last error is the reason of the last failed poll, observations after it notwithstanding |
| WatchHistory.ElapsedIsSumOfDelays | core/agent/src/feedback.rs:302-358 | elapsed time is the sum of the delays handed out, up to saturation |
| WatchHistory.WaitedByKind | core/agent/src/feedback.rs:302-358 | the time waited is one settle window per poll with news plus the backoff schedule for the rest |
| WatchHistory.DelaysNeverShrink | core/agent/src/feedback.rs:233-237 | delays are non-decreasing and at least the smaller configured delay |
| WatchHistory.DelayIs | core/agent/src/feedback.rs:234-237 | every delay is at most the maximum and at most the first one doubled per attempt up to sixteen times, and equal to one of the two |
| WatchHistory.DelayPastCap | core/agent/src/feedback.rs:234-237 | from the cap on every delay is the first one times a power of two cut off at the maximum |
| WatchHistory.CapIndexIs | core/agent/src/feedback.rs:234-237 | the cap is the first attempt at which doubling reaches the maximum, or the sixteenth |
| WatchHistory.BackoffClosedForm | core/agent/src/feedback.rs:233-237 | the sum of the first n delays: geometric until the cap, linear after it, the slope in closed form too |
| WatchHistory.LiveWatchIsShort | core/agent/src/feedback.rs:280-358 | where waiting makes progress or the window is empty, a watch that has not settled has made fewer polls than the bound for the new ids it has seen |
| WatchHistory.SettleBoundClosedForm | core/agent/src/feedback.rs:280-358 | the bound is k + F + (F+1)(m-1) + 1, where k is the least number with k times d at least W (zero for an empty window) |
| WatchHistory.EveryWatchSettles | core/agent/src/feedback.rs:280-358 | where waiting makes progress or the window is empty, whatever the reader answers, a watch that sees finitely many new ids settles within the bound |
| WatchHistory.AlwaysSettlesIff | core/agent/src/feedback.rs:280-358 | every watch that sees finitely many new ids settles if and only if both delays are positive or the window is empty |
| WatchHistory.SettledWatchIsShort | core/agent/src/feedback.rs:280-358 | with the window covered by the first k delays, a settled watch took at most k + F + (F+1)(m-1) + 1 polls for the F new ids it saw |
| WatchHistory.LongestWatchExists | core/agent/src/feedback.rs:280-358 | for the least such k and any new items, a watch that shows exactly those and takes exactly that many polls |
| WatchHistory.SettleBoundAttainedIff | core/agent/src/feedback.rs:280-358 | the bound in terms of ceil(W/d) is attained exactly when one delay less would not cover the window |
| WatchHistory.ConstantDelaysAttain | core/agent/src/feedback.rs:233-237 | with constant delays one delay less does not cover the window, so the bound is attained |
| WatchHistory.QuietIff | core/agent/src/feedback.rs:315-351 | quiet exactly when no poll failed, nothing outside the initial ledger was seen, the last poll had nothing outstanding and the delays handed out cover the window |
| WatchHistory.SilenceIff | core/agent/src/feedback.rs:315-351 | what a silence at the end of the window is taken for, told from the polls: running checks outrank an earlier failure, whose last error is named, and only neither is quiet |
| WatchHistory.SilentRun | core/agent/src/feedback.rs:315-358 | an all-silent run hands out exactly k delays, k the least number whose sum reaches the window, and then reports quiet |
| WatchHistory.ZeroDelaySilence | core/agent/src/feedback.rs:315-358 | with a zero delay silence settles exactly when the window is empty |
| WatchHistory.NewsDistinctIff | core/agent/src/feedback.rs:302-313 | the new items of a history have distinct ids exactly when no poll repeats an id among the items it is the first to show |
| WatchHistory.DistinctPollsQualify | core/agent/src/feedback.rs:302-313 | polls that repeat no id at all repeat none among their new items |
| WatchHistory.LedgerIsPending | core/agent/src/feedback.rs:302-313 | while a watch lives, the ledger is the initial one plus exactly the ids of the pending batch, each owed once exactly when no poll repeats an id that is new |
| WatchHistory.ReportsAllOrNothing | core/agent/src/feedback.rs:287-326 | a settled watch reports every item it was first to see, in order, and loses them all exactly when its last m polls (at least one) failed |
| WatchHistory.SeenThenFailuresIsLost | core/agent/src/feedback.rs:287-313 | a history that loses an item: one observation of it and then the failures |
| WatchHistory.BatchVerdict | core/agent/src/feedback.rs:362-367 | the all-clear is given exactly when an observation settled a non-empty batch of bots without objection, feedback exactly when it settled one with something to act on |
| WatchHistory.ExitZeroIff | core/agent/src/feedback.rs:135-146 | the exit code is zero exactly when the last poll was read, no new item objects, and - with nothing new - no poll failed and nothing is outstanding |
| WatchHistory.ExitCodesIff | core/agent/src/feedback.rs:135-146 | the exit code is three exactly when an observation settled a batch with something to act on, one exactly when the watch could not tell, and zero otherwise |
| WatchHistory.GivesUpIff | core/agent/src/feedback.rs:287-299 | a watch gives up exactly when its last m polls all failed |
| WatchHistory.DuplicateIdInOnePoll | core/agent/src/feedback.rs:302-324 | a settled report that names one id twice: two items with that id inside one poll |
| Triage.TriageStore.Load | bin/cli/src/agent.rs:284-290 | a missing key is an empty ledger |
| Triage.TriageStore.Save | bin/cli/src/agent.rs:292-310 | replaces one key's ledger and no other |
| Triage.PolicyIs | core/agent/src/feedback.rs:218-230 | the default timings, and a caller's window in seconds as the only change |
| Triage.DefaultSilentWatch | core/agent/src/feedback.rs:218-237 | by default a silent watch lives for six polls and is quiet at the seventh |
| Triage.TriageStore.WatchPullRequest | bin/cli/src/agent.rs:346-363 | the outcome is the settled one, the key's ledger gains exactly the ids shown, and the loop ends within the bound |
| Triage.PollUntilSettled | bin/cli/src/agent.rs:354-363 | the loop polls until the watch settles, within the bound |
| Triage.LedgersAreSeparate | bin/cli/src/agent.rs:284-310 | across any chain of watches a key's ledger is its own history, whatever other keys do |
| Triage.NothingReportedTwice | bin/cli/src/agent.rs:284-363 | across any chain of watches no id is reported twice for one pull request exactly when no watch that reports saw one poll repeat a new id; none in the ledger is ever reported |
| Triage.LostItemsStayLost | bin/cli/src/agent.rs:354-363 | no later watch of the same pull request reports anything an earlier one saw |
| Blame.ParsePorcelainBlame | bin/cli/src/blame.rs:74-118 | the loop computes the fold over the lines that the theorems are about |
| Text.DigitsIff | bin/cli/src/blame.rs:54 | exactly the non-empty runs of the ten digits denote numbers |
| Text.DigitsGrow | bin/cli/src/blame.rs:54 | each further digit adds its place in the list of digits to ten times what came before |
| BlameRoundTrip.ParseU32Iff | bin/cli/src/blame.rs:54 | a line number is digits, perhaps after a plus sign, below 2^32 |
| BlameRoundTrip.ParseI64Iff | bin/cli/src/blame.rs:109 | a time is digits, perhaps after a sign, within 64 bits |
| BlameRoundTrip.ShaIff | bin/cli/src/blame.rs:50 | a word is taken for a commit id exactly when it has forty characters, each of 0123456789abcdefABCDEF |
| BlameRoundTrip.HeaderLineIff | bin/cli/src/blame.rs:47-59 | the lines taken for headers: a commit id, a word, and a line number, with anything after a further space |
| BlameRoundTrip.LinesOfUnlines | bin/cli/src/blame.rs:79 | splitting terminated lines gives them back, less a carriage return before the newline |
| BlameRoundTrip.LastLineKept | bin/cli/src/blame.rs:79 | a last line without a newline is a line and keeps its carriage return |
| BlameRoundTrip.HeaderReadsBack | bin/cli/src/blame.rs:47-59 | a rendered header reads back as its commit and final line |
| BlameRoundTrip.TrimSplits | bin/cli/src/blame.rs:109-113 | trimming takes Unicode white space off both ends, and all of it |
| BlameRoundTrip.StripSplits | bin/cli/src/blame.rs:63-68 | stripping takes every opening bracket off the front of the trimmed text and every closing one off its end |
| BlameRoundTrip.DetailsReadBack | bin/cli/src/blame.rs:102-114 | a commit's detail block replaces whatever was known of it, whatever unknown lines stand between |
| BlameRoundTrip.EntryReadsBack | bin/cli/src/blame.rs:79-115 | one entry adds one line, with details from its commit's first appearance |
| BlameRoundTrip.NothingBeforeHeader | bin/cli/src/blame.rs:102-104 | lines in front of the first header yield nothing and leave no trace |
| BlameRoundTrip.BareHeader | bin/cli/src/blame.rs:80-98 | a commit whose details never come is reported with empty ones |
| BlameRoundTrip.ParseInvertsRender | bin/cli/src/blame.rs:74-118 | parsing a rendered blame yields one line per entry, in order, with its commit's normalised details, whatever the content and unknown lines say |
| BlameRoundTrip.DetailsSurviveIff | bin/cli/src/blame.rs:61-114 | normalisation changes nothing exactly when text is trimmed, the address has no outer brackets and the time fits 64 bits |
| BlameRoundTrip.RoundTripIff | bin/cli/src/blame.rs:74-118 | the original lines come back exactly when every commit's details are in that form |
| HookInstall.MergeHooks | bin/cli/src/hook_install.rs:178-214 | the in-place merge computes the merged settings and the flag of the theorems below |
| HookInstall.InstalledIff | bin/cli/src/hook_install.rs:238-256 | what counts as installed, told as paths into the JSON |
| HookInstall.EmptySettingsMerge | bin/cli/src/hook_install.rs:165-211 | into empty settings the merge writes exactly the four groups, key by key |
| HookInstall.MergeAppendsMissing | bin/cli/src/hook_install.rs:193-211 | every event keeps its groups as a prefix, followed by exactly the groups the original settings lacked, in table order |
| HookInstall.MergeKeepsTheRest | bin/cli/src/hook_install.rs:179-191 | other root keys and other events are untouched |
| HookInstall.MergeInstallsEverything | bin/cli/src/hook_install.rs:193-211 | all four entries count as installed afterwards |
| HookInstall.FullyInstalledIsFixed | bin/cli/src/hook_install.rs:178-214 | settings that have everything come back unchanged |
| HookInstall.ChangedIff | bin/cli/src/hook_install.rs:171-213 | the flag is raised exactly when something was missing, which is exactly when the settings differ |
| HookInstall.MergeIsIdempotent | bin/cli/src/hook_install.rs:171-214 | a second merge changes nothing and says so |
| HookInstall.WritesGuardedIff | bin/cli/src/hook_install.rs:216-256 | a group for edits and writes is there afterwards exactly when there was one before or nothing on the event ran the command |
| HookInstall.BashHookHidesWrites | bin/cli/src/hook_install.rs:238-256 | settings for which it is not |

## Left out

- Reading and writing files, standard input, git, GitHub and the model provider; state files are fields, saves succeed, and the branches that report a failed save or fail open on an error are not modelled.
- Parsing of the policy file and of JSON; a policy is a value whose tables are aligned, which `Policy.CompileTable` establishes.
- Glob matching, hashing, lower-casing and the analysers: parameters or inputs of each event.
- The wording of messages, reports and the audit log.
- Hook.HookStore.TrackCircuitBreaker: counts are unbounded, so the overflow of a 32-bit count after four billion consecutive denials is not modelled.
- Hook.HookStore.TrackLoopGuard: likewise for its 32-bit count; the saturation of the in-session guard is modelled.
- Feedback.FeedbackWatch.OnFailure: the attempt number and the failure streak are unbounded where the source has 32 bits; past sixteen the delay no longer depends on the attempt number.
- Breaker.CircuitBreaker.Record: the order of the tripped list is not modelled, it is a set.
- Hook.HookStore.Handle: the list of paths in a blocked session end is a set; its order by path is not modelled.
- Policy.WithRoleScope: its two loops that add base and scope patterns are one loop over the concatenation.
- `Cause::UnprovenWrite`, which no evaluation constructs.
- Resetting the breaker or the loop guard, which deletes one state file.
- The order of keys in a settings object, and numbers that are not integers.
- `blame_file` and `blame_files`, which run git.
- The rest of the agent run (tool calls, adjudication, swarm and triage orchestration), the language server and the terminal interface.
