/**
 * What the guardrail keeps over whole histories of events: approvals are spent once, denials
 * persist, streaks are run lengths and nothing unproven slips past the end of a session.
 */
module HookHistory {
  import opened Wrappers
  import opened Profiles
  import opened Policy
  import opened Breaker
  import opened Loops
  import opened Hook
  import opened Widths
  import Text

  predicate ValidEvents(evs: seq<Event>) {
    forall i :: 0 <= i < |evs| ==> evs[i].Valid()
  }

  /** The store after a history. */
  function Run(env: Env, st: Store, evs: seq<Event>): Store
    requires ValidEvents(evs)
  {
    if evs == [] then st else Step(env, Run(env, st, evs[..|evs| - 1]), evs[|evs| - 1]).0
  }

  lemma RunSnoc(env: Env, st: Store, evs: seq<Event>, ev: Event)
    requires ValidEvents(evs) && ev.Valid()
    ensures ValidEvents(evs + [ev]) && Run(env, st, evs + [ev]) == Step(env, Run(env, st, evs), ev).0
  {
    assert (evs + [ev])[..|evs|] == evs;
  }

  /** The write an event puts before the policy, if it does. */
  function JudgedBy(ev: Event): Option<(AgentPolicy, Attempt)> {
    match ev
    case HookWrite(p, _, a) => if p.enabled then Some((p, a)) else None
    case CheckFile(p, a) => if p.enabled then Some((p, a)) else None
    case AgentWrite(p, _, a) => Some((p, a))
    case _ => None
  }

  /** What the loop guard is told by an event that puts a write before the policy. */
  function WriteOf(ev: Event): Write
    requires JudgedBy(ev).Some?
  {
    ev.attempt.AsWrite(if ev.AgentWrite? then ev.given else ev.attempt.path)
  }

  // ---------------------------------------------------------------------------
  // Approvals
  // ---------------------------------------------------------------------------

  /**
   * An attempt the policy blocks gets through exactly when nothing blocks it beyond approval and
   * its token is in the store; what is left of the verdict then is its warnings, and the token is gone.
   */
  lemma PassesIffApproved(env: Env, p: AgentPolicy, st: Store, a: Attempt)
    ensures var e := EvaluationAt(env, p, st, a);
            var token := EscalationToken(env.hash, a.path, e);
            var (st', v) := JudgeStep(env, p, st, a);
            && (v.Denial? <==> e.IsDenied() && !(!e.HasHardDeny() && token.Some? && token.value in st.approvals))
            && (v.Denial? ==> v == Denial(a.path, e) && st'.approvals == st.approvals)
            && (!e.IsDenied() ==> st'.approvals == st.approvals && EvaluationOf(v) == e)
            && (e.IsDenied() && !e.HasHardDeny() ==> token.Some?)
            && (e.IsDenied() && !v.Denial?
                ==> st'.approvals == st.approvals - {token.value}
                    && (forall w :: w in EvaluationOf(v).violations <==> w in e.violations && w.enforcement == Warn))
  {
    var e := EvaluationAt(env, p, st, a);
    if e.IsDenied() && !e.HasHardDeny() {
      EscalatedWriteHasToken(env, p, a.path, a.findings, ProvenanceFor(st.touched, a.path), a.covered);
    }
    forall w
      ensures w in WithoutEscalations(e.violations) <==> w in e.violations && w.enforcement != Escalate
    {
      WithoutEscalationsIff(e.violations, w);
    }
  }

  /** A write that is not refused gets advice exactly when its evaluation holds a warning, and silence otherwise. */
  lemma AdviceIff(env: Env, p: AgentPolicy, st: Store, a: Attempt)
    ensures var e := EvaluationAt(env, p, st, a);
            var v := JudgeStep(env, p, st, a).1;
            var warned := exists w :: w in e.violations && w.enforcement == Warn;
            && (v.Advice? <==> !v.Denial? && warned)
            && (v.Silent? <==> !v.Denial? && !warned)
            && (!v.Silent? ==> v.path == a.path)
  {
    var e, v := EvaluationAt(env, p, st, a), JudgeStep(env, p, st, a).1;
    PassesIffApproved(env, p, st, a);
    if !v.Denial? {
      if EvaluationOf(v).violations != [] {
        assert EvaluationOf(v).violations[0] in EvaluationOf(v).violations;
      }
      AnythingLeftIsWarning(env, p, st, a);
    }
  }

  lemma AnythingLeftIsWarning(env: Env, p: AgentPolicy, st: Store, a: Attempt)
    requires !JudgeStep(env, p, st, a).1.Denial?
    ensures forall w :: w in EvaluationOf(JudgeStep(env, p, st, a).1).violations
                        <==> w in EvaluationAt(env, p, st, a).violations && w.enforcement == Warn
  {
    PassesIffApproved(env, p, st, a);
  }

  /** The token an event spends. */
  function Spent(env: Env, st: Store, ev: Event): Option<string> {
    match JudgedBy(ev)
    case None => None
    case Some((p, a)) =>
      var e := EvaluationAt(env, p, st, a);
      if Approved(env, st, a, e) then EscalationToken(env.hash, a.path, e) else None
  }

  lemma ApprovalsStep(env: Env, st: Store, ev: Event)
    requires ev.Valid()
    ensures Step(env, st, ev).0.approvals
            == if ev.Approve? then st.approvals + {ev.token}
               else if Spent(env, st, ev).Some? then st.approvals - {Spent(env, st, ev).value}
               else st.approvals
    ensures Spent(env, st, ev).Some? ==> Spent(env, st, ev).value in st.approvals
  {
  }

  function Grants(evs: seq<Event>, token: string): nat {
    if evs == [] then 0
    else Grants(evs[..|evs| - 1], token) + if evs[|evs| - 1] == Approve(token) then 1 else 0
  }

  function Passes(env: Env, st: Store, evs: seq<Event>, token: string): nat
    requires ValidEvents(evs)
  {
    if evs == [] then 0
    else
      var earlier := evs[..|evs| - 1];
      Passes(env, st, earlier, token)
      + if Spent(env, Run(env, st, earlier), evs[|evs| - 1]) == Some(token) then 1 else 0
  }

  /** Over every history a token lets through at most as many writes as it was granted. */
  lemma {:induction false} PassesNeverExceedGrants(env: Env, st: Store, evs: seq<Event>, token: string)
    requires ValidEvents(evs)
    ensures Passes(env, st, evs, token) + (if token in Run(env, st, evs).approvals then 1 else 0)
            <= Grants(evs, token) + (if token in st.approvals then 1 else 0)
  {
    if evs != [] {
      var earlier, last := evs[..|evs| - 1], evs[|evs| - 1];
      PassesNeverExceedGrants(env, st, earlier, token);
      ApprovalsStep(env, Run(env, st, earlier), last);
    }
  }

  /** A token that is not in the store stays out of it until it is approved. */
  lemma {:induction false} AbsentUntilGranted(env: Env, st: Store, evs: seq<Event>, i: nat, j: nat, token: string)
    requires ValidEvents(evs) && i <= j <= |evs|
    requires token !in Run(env, st, evs[..i]).approvals
    requires forall k :: i <= k < j ==> evs[k] != Approve(token)
    ensures token !in Run(env, st, evs[..j]).approvals
  {
    if i < j {
      AbsentUntilGranted(env, st, evs, i, j - 1, token);
      assert evs[..j] == evs[..j - 1] + [evs[j - 1]];
      RunSnoc(env, st, evs[..j - 1], evs[j - 1]);
      ApprovalsStep(env, Run(env, st, evs[..j - 1]), evs[j - 1]);
    }
  }

  predicate SpentAt(env: Env, st: Store, evs: seq<Event>, j: nat, token: string)
    requires ValidEvents(evs) && j < |evs|
  {
    Spent(env, Run(env, st, evs[..j]), evs[j]) == Some(token)
  }

  predicate SpentSince(env: Env, st: Store, evs: seq<Event>, i: nat, token: string)
    requires ValidEvents(evs)
  {
    exists j :: i <= j < |evs| && SpentAt(env, st, evs, j, token)
  }

  predicate GrantedUnspent(env: Env, st: Store, evs: seq<Event>, i: nat, token: string)
    requires ValidEvents(evs) && i < |evs|
  {
    evs[i] == Approve(token) && !SpentSince(env, st, evs, i + 1, token)
  }

  /** Stored before the history or approved in it, and not spent since. */
  predicate Pending(env: Env, st: Store, evs: seq<Event>, token: string)
    requires ValidEvents(evs)
  {
    (token in st.approvals && !SpentSince(env, st, evs, 0, token)) || SomeGrantUnspent(env, st, evs, token)
  }

  predicate SomeGrantUnspent(env: Env, st: Store, evs: seq<Event>, token: string)
    requires ValidEvents(evs)
  {
    exists i :: 0 <= i < |evs| && GrantedUnspent(env, st, evs, i, token)
  }

  lemma SpentSinceSnoc(env: Env, st: Store, evs: seq<Event>, ev: Event, i: nat, token: string)
    requires ValidEvents(evs) && ev.Valid() && ValidEvents(evs + [ev]) && i <= |evs|
    ensures SpentSince(env, st, evs + [ev], i, token)
            <==> SpentSince(env, st, evs, i, token) || Spent(env, Run(env, st, evs), ev) == Some(token)
  {
    var all := evs + [ev];
    forall j | 0 <= j < |evs|
      ensures SpentAt(env, st, all, j, token) <==> SpentAt(env, st, evs, j, token)
    {
      assert all[j] == evs[j] && all[..j] == evs[..j];
    }
    assert all[..|evs|] == evs && all[|evs|] == ev;
    assert SpentAt(env, st, all, |evs|, token) <==> Spent(env, Run(env, st, evs), ev) == Some(token);
  }

  lemma PendingSnoc(env: Env, st: Store, evs: seq<Event>, ev: Event, token: string)
    requires ValidEvents(evs) && ev.Valid() && ValidEvents(evs + [ev])
    ensures Pending(env, st, evs + [ev], token)
            <==> ev == Approve(token)
                 || (Pending(env, st, evs, token) && Spent(env, Run(env, st, evs), ev) != Some(token))
  {
    SpentSinceSnoc(env, st, evs, ev, 0, token);
    SomeGrantSnoc(env, st, evs, ev, token);
  }

  lemma SomeGrantSnoc(env: Env, st: Store, evs: seq<Event>, ev: Event, token: string)
    requires ValidEvents(evs) && ev.Valid() && ValidEvents(evs + [ev])
    ensures SomeGrantUnspent(env, st, evs + [ev], token)
            <==> ev == Approve(token)
                 || (SomeGrantUnspent(env, st, evs, token) && Spent(env, Run(env, st, evs), ev) != Some(token))
  {
    var all := evs + [ev];
    forall i | 0 <= i < |evs|
      ensures GrantedUnspent(env, st, all, i, token)
              <==> GrantedUnspent(env, st, evs, i, token) && Spent(env, Run(env, st, evs), ev) != Some(token)
    {
      GrantedUnspentSnoc(env, st, evs, ev, i, token);
    }
    assert GrantedUnspent(env, st, all, |evs|, token) <==> ev == Approve(token);
  }

  lemma GrantedUnspentSnoc(env: Env, st: Store, evs: seq<Event>, ev: Event, i: nat, token: string)
    requires ValidEvents(evs) && ev.Valid() && ValidEvents(evs + [ev]) && i < |evs|
    ensures GrantedUnspent(env, st, evs + [ev], i, token)
            <==> GrantedUnspent(env, st, evs, i, token) && Spent(env, Run(env, st, evs), ev) != Some(token)
  {
    SpentSinceSnoc(env, st, evs, ev, i + 1, token);
  }

  /** The approvals file is exactly the tokens approved and not spent since. */
  lemma {:induction false} ApprovalsAreHistory(env: Env, st: Store, evs: seq<Event>, token: string)
    requires ValidEvents(evs)
    ensures token in Run(env, st, evs).approvals <==> Pending(env, st, evs, token)
  {
    if evs != [] {
      var earlier, last := evs[..|evs| - 1], evs[|evs| - 1];
      assert evs == earlier + [last];
      ApprovalsAreHistory(env, st, earlier, token);
      ApprovalsStep(env, Run(env, st, earlier), last);
      PendingSnoc(env, st, earlier, last, token);
    }
  }

  /** Between two writes let through by the same token there is a fresh approval of it. */
  lemma GrantedBetweenPasses(env: Env, st: Store, evs: seq<Event>, i: nat, j: nat, token: string)
    requires ValidEvents(evs) && i < j < |evs|
    requires Spent(env, Run(env, st, evs[..i]), evs[i]) == Some(token)
    requires Spent(env, Run(env, st, evs[..j]), evs[j]) == Some(token)
    ensures exists k :: i < k < j && evs[k] == Approve(token)
  {
    GoneAfterSpending(env, st, evs, i, token);
    SpentIsGone(env, Run(env, st, evs[..j]), evs[j], token);
    if forall k :: i + 1 <= k < j ==> evs[k] != Approve(token) {
      AbsentUntilGranted(env, st, evs, i + 1, j, token);
    }
  }

  lemma GoneAfterSpending(env: Env, st: Store, evs: seq<Event>, i: nat, token: string)
    requires ValidEvents(evs) && i < |evs|
    requires Spent(env, Run(env, st, evs[..i]), evs[i]) == Some(token)
    ensures token !in Run(env, st, evs[..i + 1]).approvals
  {
    SpentIsGone(env, Run(env, st, evs[..i]), evs[i], token);
    RunSnoc(env, st, evs[..i], evs[i]);
    assert evs[..i + 1] == evs[..i] + [evs[i]];
  }

  lemma SpentIsGone(env: Env, st: Store, ev: Event, token: string)
    requires ev.Valid() && Spent(env, st, ev) == Some(token)
    ensures token in st.approvals && token !in Step(env, st, ev).0.approvals
  {
    ApprovalsStep(env, st, ev);
  }

  // ---------------------------------------------------------------------------
  // Provenance
  // ---------------------------------------------------------------------------

  predicate Touches(ev: Event, path: string) {
    JudgedBy(ev).Some? && JudgedBy(ev).value.1.path == path
  }

  /** The provenance ledger is every path ever put before the policy, denied or not. */
  lemma {:induction false} ProvenanceIsHistory(env: Env, st: Store, evs: seq<Event>, path: string)
    requires ValidEvents(evs)
    ensures path in Run(env, st, evs).touched
            <==> path in st.touched || exists i :: 0 <= i < |evs| && Touches(evs[i], path)
  {
    if evs != [] {
      var n := |evs| - 1;
      ProvenanceIsHistory(env, st, evs[..n], path);
      TouchedStep(env, Run(env, st, evs[..n]), evs[n], path);
      if i :| 0 <= i < |evs| && Touches(evs[i], path) {
        assert i == n || Touches(evs[..n][i], path);
      }
    }
  }

  lemma TouchedStep(env: Env, st: Store, ev: Event, path: string)
    requires ev.Valid()
    ensures path in Step(env, st, ev).0.touched <==> path in st.touched || Touches(ev, path)
  {
  }

  // ---------------------------------------------------------------------------
  // Retrying a denied write
  // ---------------------------------------------------------------------------

  function Refused(env: Env, p: AgentPolicy, st: Store, a: Attempt): bool {
    JudgeStep(env, p, st, a).1.Denial?
  }

  /** However a write reaches the policy, the same judgement and the same trackers apply. */
  lemma StepJudges(env: Env, st: Store, ev: Event)
    requires ev.Valid() && JudgedBy(ev).Some?
    ensures var (p, a) := JudgedBy(ev).value;
            var (judged, v) := JudgeStep(env, p, st, a);
            var (st', out) := Step(env, st, ev);
            && st'.touched == judged.touched
            && st'.approvals == judged.approvals
            && st'.breaker == Recorded(st.breaker, EvaluationOf(v))
            && st'.loops == LoopStep(env.hash, st.loops, WriteOf(ev))
            && out == Judged(v, TrippedRules(st.breaker, EvaluationOf(v)), st'.loops.count)
  {
    var (p, a) := JudgedBy(ev).value;
    var tracked := LoopTracked(env, st, WriteOf(ev));
    if !ev.AgentWrite? {
      JudgementIgnoresStreaks(env, p, st, tracked, a);
    }
  }

  lemma JudgementIgnoresStreaks(env: Env, p: AgentPolicy, st: Store, st': Store, a: Attempt)
    requires st'.touched == st.touched && st'.approvals == st.approvals
    ensures JudgeStep(env, p, st', a).1 == JudgeStep(env, p, st, a).1
    ensures JudgeStep(env, p, st', a).0.touched == JudgeStep(env, p, st, a).0.touched
    ensures JudgeStep(env, p, st', a).0.approvals == JudgeStep(env, p, st, a).0.approvals
    ensures JudgeStep(env, p, st', a).0.loops == st'.loops && JudgeStep(env, p, st', a).0.breaker == st'.breaker
  {
  }

  /** The store once an attempt has been refused. */
  lemma RefusalChanges(env: Env, st: Store, ev: Event, p: AgentPolicy, a: Attempt)
    requires ev.Valid() && JudgedBy(ev) == Some((p, a))
    requires Refused(env, p, st, a)
    ensures var (st', out) := Step(env, st, ev);
            var e := EvaluationAt(env, p, st, a);
            && st'.touched == st.touched + {a.path}
            && st'.approvals == st.approvals
            && st'.breaker == Recorded(st.breaker, e)
            && st'.loops == LoopStep(env.hash, st.loops, WriteOf(ev))
            && out == Judged(Denial(a.path, e), TrippedRules(st.breaker, e), st'.loops.count)
  {
    StepJudges(env, st, ev);
    PassesIffApproved(env, p, st, a);
  }

  /** Refused once, refused again: the token is the same and every rule that blocked still does. */
  lemma RetryIsRefused(env: Env, p: AgentPolicy, st: Store, st': Store, a: Attempt)
    requires p.Tightens()
    requires Refused(env, p, st, a)
    requires st'.approvals == st.approvals
    requires a.path in st'.touched
    ensures Refused(env, p, st', a)
    ensures EscalationToken(env.hash, a.path, EvaluationAt(env, p, st', a))
            == EscalationToken(env.hash, a.path, EvaluationAt(env, p, st, a))
    ensures BlockedRules(EvaluationAt(env, p, st, a)) <= BlockedRules(EvaluationAt(env, p, st', a))
  {
    TighteningKeepsDenials(env.globs, p, a.path, a.findings, a.covered);
    EscalationsIgnoreProvenance(env.globs, p, a.path, a.findings, a.covered,
                                ProvenanceFor(st.touched, a.path), AiTouched);
    PassesIffApproved(env, p, st, a);
    PassesIffApproved(env, p, st', a);
  }

  /** Some event of the history approves the token. */
  predicate Granted(evs: seq<Event>, token: Option<string>) {
    token.Some? && Approve(token.value) in evs
  }

  /**
   * Once refused, a write stays refused whatever happens in between - other writes, other policies,
   * other approvals, test runs - until its own token is approved, and even then if anything denied
   * it beyond approval.
   */
  lemma RefusedUntilGranted(env: Env, st: Store, ev: Event, p: AgentPolicy, a: Attempt, evs: seq<Event>)
    requires ev.Valid() && JudgedBy(ev) == Some((p, a)) && p.Tightens()
    requires Refused(env, p, st, a)
    requires ValidEvents(evs)
    requires var e := EvaluationAt(env, p, st, a);
             e.HasHardDeny() || !Granted(evs, EscalationToken(env.hash, a.path, e))
    ensures Refused(env, p, Run(env, Step(env, st, ev).0, evs), a)
  {
    var st1 := Step(env, st, ev).0;
    var e, st2 := EvaluationAt(env, p, st, a), Run(env, st1, evs);
    RefusalChanges(env, st, ev, p, a);
    ProvenanceIsHistory(env, st1, evs, a.path);
    PassesIffApproved(env, p, st, a);
    if !e.HasHardDeny() {
      var token := EscalationToken(env.hash, a.path, e).value;
      assert evs[..0] == [] && evs[..|evs|] == evs;
      AbsentUntilGranted(env, st1, evs, 0, |evs|, token);
    }
    RefusedWithoutToken(env, p, st, st2, a);
  }

  lemma RefusedWithoutToken(env: Env, p: AgentPolicy, st: Store, st': Store, a: Attempt)
    requires p.Tightens() && a.path in st'.touched
    requires var e := EvaluationAt(env, p, st, a);
             var token := EscalationToken(env.hash, a.path, e);
             e.IsDenied() && (e.HasHardDeny() || (token.Some? && token.value !in st'.approvals))
    ensures Refused(env, p, st', a)
  {
    TighteningKeepsDenials(env.globs, p, a.path, a.findings, a.covered);
    EscalationsIgnoreProvenance(env.globs, p, a.path, a.findings, a.covered,
                                ProvenanceFor(st.touched, a.path), AiTouched);
    PassesIffApproved(env, p, st', a);
  }

  function Retry(ev: Event, n: nat): seq<Event> {
    seq(n, _ => ev)
  }

  /**
   * Retrying a refused write without a fresh approval: every attempt is refused, and each rule that
   * blocked the first one and the identical write are each counted once per attempt.
   */
  lemma {:induction false} RetriesAccumulate(env: Env, st: Store, ev: Event, p: AgentPolicy, a: Attempt, n: nat)
    requires ev.Valid() && JudgedBy(ev) == Some((p, a)) && p.Tightens()
    requires Refused(env, p, st, a)
    ensures RefusedTimes(env, st, ev, p, a, Run(env, st, Retry(ev, n)), n)
  {
    if n > 0 {
      RetriesAccumulate(env, st, ev, p, a, n - 1);
      RetryOnceMore(env, st, ev, n - 1);
      RefusedOnceMore(env, st, ev, p, a, Run(env, st, Retry(ev, n - 1)), n - 1);
    }
  }

  lemma RetryOnceMore(env: Env, st: Store, ev: Event, n: nat)
    requires ev.Valid()
    ensures Run(env, st, Retry(ev, n + 1)) == Step(env, Run(env, st, Retry(ev, n)), ev).0
  {
    assert Retry(ev, n + 1) == Retry(ev, n) + [ev];
    RunSnoc(env, st, Retry(ev, n), ev);
  }

  /** What `n` refusals in a row have made of the store `st`. */
  predicate RefusedTimes(env: Env, st: Store, ev: Event, p: AgentPolicy, a: Attempt, now: Store, n: nat)
    requires JudgedBy(ev) == Some((p, a))
  {
    && Refused(env, p, now, a)
    && now.approvals == st.approvals
    && EscalationToken(env.hash, a.path, EvaluationAt(env, p, now, a))
       == EscalationToken(env.hash, a.path, EvaluationAt(env, p, st, a))
    && BlockedRules(EvaluationAt(env, p, st, a)) <= BlockedRules(EvaluationAt(env, p, now, a))
    && (forall r :: r in BlockedRules(EvaluationAt(env, p, st, a))
          ==> CountFor(now.breaker, r) == CountFor(st.breaker, r) + n)
    && (n > 0 ==> a.path in now.touched && now.loops.count >= n
                  && now.loops.signature == Some(env.hash(WriteOf(ev).path, WriteOf(ev).content)))
  }

  lemma RefusedOnceMore(env: Env, st: Store, ev: Event, p: AgentPolicy, a: Attempt, before: Store, n: nat)
    requires ev.Valid() && JudgedBy(ev) == Some((p, a)) && p.Tightens()
    requires Refused(env, p, st, a) && RefusedTimes(env, st, ev, p, a, before, n)
    ensures RefusedTimes(env, st, ev, p, a, Step(env, before, ev).0, n + 1)
  {
    RefusalChanges(env, before, ev, p, a);
    RetryIsRefused(env, p, st, Step(env, before, ev).0, a);
  }

  /** A store in which one refusal more trips a rule and the loop alarm. */
  predicate OnTheBrink(env: Env, now: Store, ev: Event, p: AgentPolicy, a: Attempt, rule: RuleId)
    requires JudgedBy(ev) == Some((p, a))
  {
    && Refused(env, p, now, a)
    && rule in BlockedRules(EvaluationAt(env, p, now, a)) && CountFor(now.breaker, rule) >= 2
    && now.loops.signature == Some(env.hash(WriteOf(ev).path, WriteOf(ev).content)) && now.loops.count >= 2
  }

  lemma TwoRefusalsBringToTheBrink(
    env: Env, st: Store, ev: Event, p: AgentPolicy, a: Attempt, n: nat, rule: RuleId)
    requires ev.Valid() && JudgedBy(ev) == Some((p, a)) && p.Tightens()
    requires Refused(env, p, st, a)
    requires rule in BlockedRules(EvaluationAt(env, p, st, a))
    requires n >= 2
    ensures OnTheBrink(env, Run(env, st, Retry(ev, n)), ev, p, a, rule)
  {
    RetriesAccumulate(env, st, ev, p, a, n);
  }

  /**
   * From the third identical attempt on, every rule that blocked the first attempt has tripped,
   * and so has the loop alarm.
   */
  lemma ThirdRetryTrips(env: Env, st: Store, ev: Event, p: AgentPolicy, a: Attempt, n: nat, rule: RuleId)
    requires ev.Valid() && JudgedBy(ev) == Some((p, a)) && p.Tightens()
    requires Refused(env, p, st, a)
    requires rule in BlockedRules(EvaluationAt(env, p, st, a))
    requires n >= 2
    ensures RefusedWithAlarms(Step(env, Run(env, st, Retry(ev, n)), ev).1, rule)
  {
    TwoRefusalsBringToTheBrink(env, st, ev, p, a, n, rule);
    OneRefusalMore(env, Run(env, st, Retry(ev, n)), ev, p, a, rule);
  }

  /** Told from the findings: the rule of any finding that blocks, for escalations and denials alike. */
  lemma BlockedFindingTrips(env: Env, st: Store, ev: Event, p: AgentPolicy, a: Attempt, n: nat, f: Finding)
    requires ev.Valid() && JudgedBy(ev) == Some((p, a)) && p.enabled && p.Tightens()
    requires Refused(env, p, st, a)
    requires f in a.findings && f.rule !in p.advisoryRules && (f.rule in p.blockingRules || f.rule in p.escalateRules)
    requires n >= 2
    ensures RefusedWithAlarms(Step(env, Run(env, st, Retry(ev, n)), ev).1, f.rule)
  {
    BlockedRulesIff(env.globs, p, a.path, a.findings, ProvenanceFor(st.touched, a.path), a.covered, f.rule);
    assert Blocks(p, p.ThresholdFor(ProvenanceFor(st.touched, a.path)), f);
    ThirdRetryTrips(env, st, ev, p, a, n, f.rule);
  }

  predicate RefusedWithAlarms(out: Output, rule: RuleId) {
    out.Judged? && out.verdict.Denial? && rule in out.tripped && out.loopCount >= LOOP_TRIP_THRESHOLD
  }

  lemma OneRefusalMore(env: Env, now: Store, ev: Event, p: AgentPolicy, a: Attempt, rule: RuleId)
    requires ev.Valid() && JudgedBy(ev) == Some((p, a))
    requires OnTheBrink(env, now, ev, p, a, rule)
    ensures RefusedWithAlarms(Step(env, now, ev).1, rule)
  {
    RefusalChanges(env, now, ev, p, a);
  }

  /**
   * The `[agent.ai_touched]` threshold keeps denials exactly when it tightens: otherwise a finding
   * between the two thresholds is denied on the first attempt and let through on the second.
   */
  lemma DenialsPersistIffTightening(g: Globs, p: AgentPolicy, path: string, covered: bool)
    requires p.enabled && !PathDenied(g, p, path, covered)
    ensures p.Tightens()
            <==> forall findings :: ValidFindings(findings)
                                    && Evaluated(g, p, path, findings, Unestablished, covered).IsDenied()
                                    ==> Evaluated(g, p, path, findings, AiTouched, covered).IsDenied()
  {
    if p.Tightens() {
      forall findings | Evaluated(g, p, path, findings, Unestablished, covered).IsDenied()
        ensures Evaluated(g, p, path, findings, AiTouched, covered).IsDenied()
      {
        TighteningKeepsDenials(g, p, path, findings, covered);
      }
    } else {
      var rule := UnlistedRule(p.advisoryRules + p.blockingRules + p.escalateRules);
      var f := Finding(rule, p.blockAtOrAbove, "", 0);
      VerdictIff(g, p, path, [f], Unestablished, covered);
      VerdictIff(g, p, path, [f], AiTouched, covered);
      assert f in [f] && Blocks(p, p.blockAtOrAbove, f);
      assert ValidFindings([f]) && Evaluated(g, p, path, [f], Unestablished, covered).IsDenied();
      assert !Evaluated(g, p, path, [f], AiTouched, covered).IsDenied();
    }
  }

  /** The same write again, right after it was judged. */
  predicate RetryRefused(env: Env, p: AgentPolicy, st: Store, a: Attempt)
    requires p.Valid() && a.Valid()
  {
    Refused(env, p, Step(env, st, CheckFile(p, a)).0, a)
  }

  /** The run form: a refused write is refused on the retry, for all findings, exactly when the threshold tightens. */
  lemma RefusalsPersistIffTightening(env: Env, p: AgentPolicy, st: Store, path: string, covered: bool)
    requires p.enabled && p.Valid() && !PathDenied(env.globs, p, path, covered) && path !in st.touched
    ensures p.Tightens()
            <==> forall findings ::
                   ValidFindings(findings) && Refused(env, p, st, Attempt(path, None, findings, covered))
                   ==> RetryRefused(env, p, st, Attempt(path, None, findings, covered))
  {
    if p.Tightens() {
      forall findings | ValidFindings(findings) && Refused(env, p, st, Attempt(path, None, findings, covered))
        ensures RetryRefused(env, p, st, Attempt(path, None, findings, covered))
      {
        var a := Attempt(path, None, findings, covered);
        RefusalChanges(env, st, CheckFile(p, a), p, a);
        RetryIsRefused(env, p, st, Step(env, st, CheckFile(p, a)).0, a);
      }
    } else {
      var f := LoosenedRetryPasses(env, p, st, path, covered);
      assert ValidFindings([f]);
    }
  }

  /** A finding between the two thresholds: refused, and let through the second time. */
  lemma LoosenedRetryPasses(env: Env, p: AgentPolicy, st: Store, path: string, covered: bool) returns (f: Finding)
    requires p.enabled && p.Valid() && !PathDenied(env.globs, p, path, covered) && path !in st.touched && !p.Tightens()
    ensures IsRuleId(f.rule)
    ensures var a := Attempt(path, None, [f], covered);
            Refused(env, p, st, a) && !RetryRefused(env, p, st, a)
  {
    var rule := UnlistedRule(p.advisoryRules + p.blockingRules + p.escalateRules);
    f := Finding(rule, p.blockAtOrAbove, "", 0);
    var a := Attempt(path, None, [f], covered);
    VerdictIff(env.globs, p, path, [f], Unestablished, covered);
    VerdictIff(env.globs, p, path, [f], AiTouched, covered);
    assert f in [f] && HardBlocks(p, p.blockAtOrAbove, f) && Blocks(p, p.blockAtOrAbove, f);
    PassesIffApproved(env, p, st, a);
    RefusalChanges(env, st, CheckFile(p, a), p, a);
    PassesIffApproved(env, p, Step(env, st, CheckFile(p, a)).0, a);
  }

  function Longest(rules: seq<RuleId>): nat {
    if rules == [] then 0
    else
      var last, rest := |rules[|rules| - 1]|, Longest(rules[..|rules| - 1]);
      if last > rest then last else rest
  }

  lemma {:induction false} LongestBounds(rules: seq<RuleId>, r: RuleId)
    requires r in rules
    ensures |r| <= Longest(rules)
  {
    if r != rules[|rules| - 1] {
      LongestBounds(rules[..|rules| - 1], r);
    }
  }

  /** No finite configuration lists every rule. */
  lemma UnlistedRule(listed: seq<RuleId>) returns (rule: RuleId)
    ensures IsRuleId(rule) && rule !in listed
  {
    var code := seq(Longest(listed) + 1, _ => 'a');
    rule := "a:" + code;
    assert rule[..1] == "a" && rule[2..] == code;
    assert rule[1] == ':' && IsRulePart(rule[..1]) && IsRulePart(rule[1 + 1..]);
    if rule in listed {
      LongestBounds(listed, rule);
    }
  }

  // ---------------------------------------------------------------------------
  // Approving a retry
  // ---------------------------------------------------------------------------

  /** A finding that only the threshold for AI-touched paths denies. */
  predicate NewlyHard(p: AgentPolicy, findings: seq<Finding>) {
    exists i :: 0 <= i < |findings| && HardBlocks(p, p.aiTouchedBlockAtOrAbove, findings[i])
  }

  /**
   * A write refused only for escalations is let through after an approval if and only if its path
   * was already AI-touched, or the AI-touched threshold adds no hard denial. `st'` is any later
   * store in which the path is touched and the token approved.
   */
  lemma ApprovedRetryIff(env: Env, p: AgentPolicy, st: Store, st': Store, a: Attempt)
    requires var e := EvaluationAt(env, p, st, a); e.IsDenied() && !e.HasHardDeny()
    requires a.path in st'.touched
    requires EscalationToken(env.hash, a.path, EvaluationAt(env, p, st, a)).Some?
             && EscalationToken(env.hash, a.path, EvaluationAt(env, p, st, a)).value in st'.approvals
    ensures !Refused(env, p, st', a) <==> a.path in st.touched || !NewlyHard(p, a.findings)
  {
    var first, second := EvaluationAt(env, p, st, a), EvaluationAt(env, p, st', a);
    EscalationsIgnoreProvenance(env.globs, p, a.path, a.findings, a.covered,
                                ProvenanceFor(st.touched, a.path), AiTouched);
    VerdictIff(env.globs, p, a.path, a.findings, ProvenanceFor(st.touched, a.path), a.covered);
    VerdictIff(env.globs, p, a.path, a.findings, AiTouched, a.covered);
    assert second.HasHardDeny() <==> NewlyHard(p, a.findings);
    PassesIffApproved(env, p, st', a);
  }

  /** Attempt, approval, identical attempt. */
  lemma ApproveThenRetry(env: Env, st: Store, ev: Event, p: AgentPolicy, a: Attempt, token: string)
    requires ev.Valid() && JudgedBy(ev) == Some((p, a))
    requires EvaluationAt(env, p, st, a).IsDenied() && !EvaluationAt(env, p, st, a).HasHardDeny()
    requires EscalationToken(env.hash, a.path, EvaluationAt(env, p, st, a)) == Some(token)
    ensures Refused(env, p, Run(env, st, [ev, Approve(token)]), a)
            <==> a.path !in st.touched && NewlyHard(p, a.findings)
  {
    var evs := [ev, Approve(token)];
    assert evs[..1] == [ev] && [ev][..0] == [];
    assert Run(env, st, [ev]) == Step(env, Run(env, st, []), ev).0;
    ApprovedRetryIff(env, p, st, Run(env, st, evs), a);
  }

  /** Blocked, and only by what an approval can lift. */
  predicate OnlyEscalated(env: Env, p: AgentPolicy, st: Store, a: Attempt) {
    EvaluationAt(env, p, st, a).IsDenied() && !EvaluationAt(env, p, st, a).HasHardDeny()
  }

  /** Attempt, approval of its token, identical attempt: the last one is let through. */
  predicate ApprovedRetryPasses(env: Env, p: AgentPolicy, st: Store, a: Attempt)
    requires p.Valid() && a.Valid()
  {
    var token := EscalationToken(env.hash, a.path, EvaluationAt(env, p, st, a));
    token.Some? && !Refused(env, p, Run(env, st, [CheckFile(p, a), Approve(token.value)]), a)
  }

  /** Some rule can escalate: it is listed for that, and on neither of the lists that outrank it. */
  ghost predicate CanEscalate(p: AgentPolicy) {
    exists r :: IsRuleId(r) && r in p.escalateRules && r !in p.advisoryRules && r !in p.blockingRules
  }

  /** `ApproveThenRetry` for one attempt on an untouched path. */
  lemma ApprovedRetryPassesIff(env: Env, p: AgentPolicy, st: Store, a: Attempt)
    requires p.enabled && p.Valid() && a.Valid() && a.path !in st.touched
    requires OnlyEscalated(env, p, st, a)
    ensures ApprovedRetryPasses(env, p, st, a) <==> !NewlyHard(p, a.findings)
  {
    EscalatedWriteHasToken(env, p, a.path, a.findings, ProvenanceFor(st.touched, a.path), a.covered);
    var token := EscalationToken(env.hash, a.path, EvaluationAt(env, p, st, a)).value;
    ApproveThenRetry(env, st, CheckFile(p, a), p, a, token);
  }

  /** What a threshold at most as strict denies beyond approval, the other one does too. */
  lemma LooserAddsNothing(env: Env, p: AgentPolicy, st: Store, a: Attempt)
    requires p.enabled && a.path !in st.touched && OnlyEscalated(env, p, st, a)
    requires Rank(p.aiTouchedBlockAtOrAbove) >= Rank(p.blockAtOrAbove)
    ensures !NewlyHard(p, a.findings)
  {
    VerdictIff(env.globs, p, a.path, a.findings, Unestablished, a.covered);
    if i :| 0 <= i < |a.findings| && HardBlocks(p, p.aiTouchedBlockAtOrAbove, a.findings[i]) {
      assert a.findings[i] in a.findings && HardBlocks(p, p.blockAtOrAbove, a.findings[i]);
    }
  }

  lemma OnlyEscalatedNeedsRule(env: Env, p: AgentPolicy, st: Store, a: Attempt)
    requires p.enabled && a.Valid() && OnlyEscalated(env, p, st, a)
    ensures CanEscalate(p)
  {
    var t := p.ThresholdFor(ProvenanceFor(st.touched, a.path));
    VerdictIff(env.globs, p, a.path, a.findings, ProvenanceFor(st.touched, a.path), a.covered);
    var f :| f in a.findings && Blocks(p, t, f);
    assert !HardBlocks(p, t, f) && IsRuleId(f.rule);
  }

  /** An escalated finding next to one only the AI-touched threshold denies. */
  function MixedFindings(p: AgentPolicy, escalated: RuleId, unlisted: RuleId): seq<Finding> {
    [Finding(escalated, Info, "", 0), Finding(unlisted, p.aiTouchedBlockAtOrAbove, "", 0)]
  }

  /**
   * An approved retry that is refused: under a strictly tighter AI-touched threshold, a write with
   * such a pair of findings is denied by the escalation alone at first, and beyond approval after.
   */
  lemma ApprovedRetryRefused(env: Env, p: AgentPolicy, st: Store, path: string, covered: bool, escalated: RuleId)
    returns (a: Attempt)
    requires p.enabled && p.Valid() && !PathDenied(env.globs, p, path, covered) && path !in st.touched
    requires Rank(p.aiTouchedBlockAtOrAbove) < Rank(p.blockAtOrAbove)
    requires IsRuleId(escalated) && escalated in p.escalateRules
    requires escalated !in p.advisoryRules && escalated !in p.blockingRules
    ensures a.Valid() && a.path == path && a.content == None && a.covered == covered
    ensures OnlyEscalated(env, p, st, a) && !ApprovedRetryPasses(env, p, st, a)
  {
    var unlisted := UnlistedRule(p.advisoryRules + p.blockingRules + p.escalateRules);
    a := Attempt(path, None, MixedFindings(p, escalated, unlisted), covered);
    MixedIsOnlyEscalated(env, p, st, a, escalated, unlisted);
    assert HardBlocks(p, p.aiTouchedBlockAtOrAbove, a.findings[1]);
    ApprovedRetryPassesIff(env, p, st, a);
  }

  lemma MixedIsOnlyEscalated(
    env: Env, p: AgentPolicy, st: Store, a: Attempt, escalated: RuleId, unlisted: RuleId)
    requires p.enabled && !PathDenied(env.globs, p, a.path, a.covered) && a.path !in st.touched
    requires Rank(p.aiTouchedBlockAtOrAbove) < Rank(p.blockAtOrAbove)
    requires escalated in p.escalateRules && escalated !in p.advisoryRules && escalated !in p.blockingRules
    requires unlisted !in p.blockingRules && unlisted !in p.escalateRules
    requires a.findings == MixedFindings(p, escalated, unlisted)
    ensures OnlyEscalated(env, p, st, a)
  {
    VerdictIff(env.globs, p, a.path, a.findings, Unestablished, a.covered);
    assert a.findings[0] in a.findings && Blocks(p, p.blockAtOrAbove, a.findings[0]);
  }

  /**
   * On an untouched path no glob denies, every approved retry of a write refused only for escalations
   * passes exactly when the AI-touched threshold is not the stricter one, or no rule can escalate.
   */
  lemma ApprovedRetriesPassIff(env: Env, p: AgentPolicy, st: Store, path: string, covered: bool)
    requires p.enabled && p.Valid() && !PathDenied(env.globs, p, path, covered) && path !in st.touched
    ensures Rank(p.aiTouchedBlockAtOrAbove) >= Rank(p.blockAtOrAbove) || !CanEscalate(p)
            <==> forall findings ::
                   ValidFindings(findings) && OnlyEscalated(env, p, st, Attempt(path, None, findings, covered))
                   ==> ApprovedRetryPasses(env, p, st, Attempt(path, None, findings, covered))
  {
    if Rank(p.aiTouchedBlockAtOrAbove) >= Rank(p.blockAtOrAbove) || !CanEscalate(p) {
      forall findings |
        ValidFindings(findings) && OnlyEscalated(env, p, st, Attempt(path, None, findings, covered))
        ensures ApprovedRetryPasses(env, p, st, Attempt(path, None, findings, covered))
      {
        var a := Attempt(path, None, findings, covered);
        OnlyEscalatedNeedsRule(env, p, st, a);
        LooserAddsNothing(env, p, st, a);
        ApprovedRetryPassesIff(env, p, st, a);
      }
    } else {
      var r :| IsRuleId(r) && r in p.escalateRules && r !in p.advisoryRules && r !in p.blockingRules;
      var a := ApprovedRetryRefused(env, p, st, path, covered, r);
      assert a == Attempt(path, None, a.findings, covered);
    }
  }

  /** What the approval of a refused attempt adds to the store. */
  lemma AfterApproval(env: Env, st: Store, ev: Event, p: AgentPolicy, a: Attempt, token: string)
    requires ev.Valid() && JudgedBy(ev) == Some((p, a)) && Refused(env, p, st, a)
    ensures var now := Run(env, st, [ev, Approve(token)]);
            now.touched == st.touched + {a.path} && now.approvals == st.approvals + {token}
  {
    var evs := [ev, Approve(token)];
    assert evs[..1] == [ev] && [ev][..0] == [];
    assert Run(env, st, [ev]) == Step(env, Run(env, st, []), ev).0;
    RefusalChanges(env, st, ev, p, a);
  }

  predicate Stored(env: Env, approvals: set<string>, path: string, e: Evaluation) {
    EscalationToken(env.hash, path, e).Some? && EscalationToken(env.hash, path, e).value in approvals
  }

  /**
   * Which writes the approval of attempt `a` lets through: attempt `b`, judged by policy `q` and
   * denied by it, passes exactly when nothing denies it beyond approval and it has the path and the
   * escalated text of `a` (or was approved before).
   */
  lemma ApprovalLetsThroughIff(
    env: Env, st: Store, ev: Event, p: AgentPolicy, a: Attempt, token: string, q: AgentPolicy, b: Attempt)
    requires ev.Valid() && JudgedBy(ev) == Some((p, a)) && Refused(env, p, st, a)
    requires EscalationToken(env.hash, a.path, EvaluationAt(env, p, st, a)) == Some(token)
    ensures var now := Run(env, st, [ev, Approve(token)]);
            var ea, eb := EvaluationAt(env, p, st, a), EvaluationAt(env, q, now, b);
            eb.IsDenied() && NoTokenCollision(env.hash, a.path, ea, b.path, eb)
            ==>
            (!Refused(env, q, now, b)
             <==>
             && !eb.HasHardDeny()
             && ((a.path == b.path && EscalatedText(ea) == EscalatedText(eb)) || Stored(env, st.approvals, b.path, eb)))
  {
    var now := Run(env, st, [ev, Approve(token)]);
    var ea, eb := EvaluationAt(env, p, st, a), EvaluationAt(env, q, now, b);
    AfterApproval(env, st, ev, p, a, token);
    PassesIffApproved(env, q, now, b);
    if eb.IsDenied() && !eb.HasHardDeny() && NoTokenCollision(env.hash, a.path, ea, b.path, eb) {
      TokenIsText(env.hash, a.path, ea, b.path, eb);
    }
  }

  lemma {:induction false} EscalatedComeFrom(violations: seq<Violation>, f: Finding)
    requires f in FindingsBehind(Escalations(violations))
    ensures exists v: Violation :: v in violations && v.finding == Some(f)
  {
    var rest, last := violations[..|violations| - 1], violations[|violations| - 1];
    if last.finding != Some(f) {
      EscalatedComeFrom(rest, f);
    }
  }

  lemma EscalatedAreValid(env: Env, p: AgentPolicy, st: Store, a: Attempt)
    requires a.Valid()
    ensures ValidFindings(EscalatedFindings(EvaluationAt(env, p, st, a)))
  {
    var e := EvaluationAt(env, p, st, a);
    forall f | f in EscalatedFindings(e)
      ensures IsRuleId(f.rule)
    {
      EscalatedComeFrom(e.violations, f);
      var v: Violation :| v in e.violations && v.finding == Some(f);
      ViolationIff(env.globs, p, a.path, a.findings, ProvenanceFor(st.touched, a.path), a.covered, v);
    }
  }

  /**
   * Away from the separator that means: the same path, and the same escalated findings up to severity.
   * `now` is any store with the approvals of `st` and the token of `a`.
   */
  lemma ApprovalLetsThroughSameFindings(
    env: Env, st: Store, p: AgentPolicy, a: Attempt, token: string, now: Store, q: AgentPolicy, b: Attempt)
    requires a.Valid() && b.Valid()
    requires EscalationToken(env.hash, a.path, EvaluationAt(env, p, st, a)) == Some(token)
    requires now.approvals == st.approvals + {token}
    requires EvaluationAt(env, q, now, b).IsDenied()
    requires NoTokenCollision(env.hash, a.path, EvaluationAt(env, p, st, a), b.path, EvaluationAt(env, q, now, b))
    requires Text.Free(EscalatedParts(EvaluationAt(env, p, st, a)), '|')
    requires Text.Free(EscalatedParts(EvaluationAt(env, q, now, b)), '|')
    ensures var ea, eb := EvaluationAt(env, p, st, a), EvaluationAt(env, q, now, b);
            !Refused(env, q, now, b)
            <==>
            && !eb.HasHardDeny()
            && (|| (a.path == b.path && Keys(EscalatedFindings(ea)) == Keys(EscalatedFindings(eb)))
                || Stored(env, st.approvals, b.path, eb))
  {
    var ea, eb := EvaluationAt(env, p, st, a), EvaluationAt(env, q, now, b);
    PassesIffApproved(env, q, now, b);
    if !eb.HasHardDeny() {
      EscalatedAreValid(env, p, st, a);
      EscalatedAreValid(env, q, now, b);
      TokenIdentifies(env.hash, a.path, ea, b.path, eb);
    }
  }

  /** The content plays no part: an approval lets the path and findings through with any content. */
  lemma ApprovalIgnoresContent(
    env: Env, st: Store, ev: Event, p: AgentPolicy, a: Attempt, token: string, content: Option<string>)
    requires ev.Valid() && JudgedBy(ev) == Some((p, a))
    requires EvaluationAt(env, p, st, a).IsDenied() && !EvaluationAt(env, p, st, a).HasHardDeny()
    requires EscalationToken(env.hash, a.path, EvaluationAt(env, p, st, a)) == Some(token)
    ensures Refused(env, p, Run(env, st, [ev, Approve(token)]), a.(content := content))
            <==> a.path !in st.touched && NewlyHard(p, a.findings)
  {
    var now, b := Run(env, st, [ev, Approve(token)]), a.(content := content);
    ApproveThenRetry(env, st, ev, p, a, token);
    assert EvaluationAt(env, p, now, b) == EvaluationAt(env, p, now, a);
  }

  /** A policy that escalates some rules and knows nothing else. */
  function EscalateOnly(rules: seq<RuleId>): AgentPolicy {
    AgentPolicy(true, Blocker, Blocker, [], [], rules, NO_GLOBS, NO_GLOBS, NO_GLOBS, [])
  }

  predicate AllNamed(rules: seq<RuleId>, findings: seq<Finding>) {
    forall i :: 0 <= i < |findings| ==> findings[i].rule in rules
  }

  lemma EscalatedSnoc(violations: seq<Violation>, v: Violation)
    requires v.enforcement == Escalate && v.finding.Some?
    ensures FindingsBehind(Escalations(violations + [v])) == FindingsBehind(Escalations(violations)) + [v.finding.value]
  {
    assert (violations + [v])[..|violations|] == violations;
    assert (Escalations(violations) + [v])[..|Escalations(violations)|] == Escalations(violations);
  }

  lemma {:induction false} EscalateOnlyViolations(rules: seq<RuleId>, findings: seq<Finding>)
    requires AllNamed(rules, findings)
    ensures FindingsBehind(Escalations(FindingViolations(EscalateOnly(rules), Blocker, findings))) == findings
  {
    if findings != [] {
      var rest, last := findings[..|findings| - 1], findings[|findings| - 1];
      EscalateOnlyViolations(rules, rest);
      EscalatedSnoc(FindingViolations(EscalateOnly(rules), Blocker, rest), Violation(Escalate, Escalation, Some(last)));
    }
  }

  lemma EscalateOnlyEvaluation(
    g: Globs, rules: seq<RuleId>, path: string, findings: seq<Finding>, provenance: Provenance, covered: bool)
    ensures Evaluated(g, EscalateOnly(rules), path, findings, provenance, covered)
            == Evaluation(FindingViolations(EscalateOnly(rules), Blocker, findings))
  {
  }

  lemma EscalateOnlyVerdict(
    g: Globs, rules: seq<RuleId>, path: string, findings: seq<Finding>, provenance: Provenance, covered: bool)
    requires AllNamed(rules, findings) && findings != []
    ensures var e := Evaluated(g, EscalateOnly(rules), path, findings, provenance, covered);
            e.IsDenied() && !e.HasHardDeny()
  {
    VerdictIff(g, EscalateOnly(rules), path, findings, provenance, covered);
    assert findings[0] in findings && Blocks(EscalateOnly(rules), Blocker, findings[0]);
  }

  lemma EscalateOnlyJudges(env: Env, rules: seq<RuleId>, st: Store, a: Attempt)
    requires AllNamed(rules, a.findings) && a.findings != []
    ensures var e := EvaluationAt(env, EscalateOnly(rules), st, a);
            e.IsDenied() && !e.HasHardDeny() && EscalatedFindings(e) == a.findings
  {
    EscalateOnlyVerdict(env.globs, rules, a.path, a.findings, ProvenanceFor(st.touched, a.path), a.covered);
    EscalateOnlyEvaluation(env.globs, rules, a.path, a.findings, ProvenanceFor(st.touched, a.path), a.covered);
    EscalateOnlyViolations(rules, a.findings);
  }

  lemma EscalateOnlyToken(env: Env, rules: seq<RuleId>, st: Store, a: Attempt)
    requires AllNamed(rules, a.findings) && a.findings != []
    ensures EscalationToken(env.hash, a.path, EvaluationAt(env, EscalateOnly(rules), st, a))
            == Some(env.hash(a.path, FindingsText(a.findings)))
  {
    EscalateOnlyJudges(env, rules, st, a);
  }

  /** Two writes to one path whose findings have the same text: approving one lets the other through. */
  lemma TwinPasses(env: Env, rules: seq<RuleId>, a: Attempt, b: Attempt)
    requires AllNamed(rules, a.findings) && AllNamed(rules, b.findings) && a.findings != [] && b.findings != []
    requires a.Valid() && a.path == b.path && FindingsText(a.findings) == FindingsText(b.findings)
    ensures OneApprovalServesBoth(env, EscalateOnly(rules), a, b, env.hash(a.path, FindingsText(a.findings)))
  {
    var p, token := EscalateOnly(rules), env.hash(a.path, FindingsText(a.findings));
    FirstIsRefused(env, rules, a);
    forall st: Store | token in st.approvals
      ensures !Refused(env, p, st, b)
    {
      StoredPasses(env, rules, st, b);
    }
    StoredTokenServes(env, p, a, b, token);
  }

  lemma StoredTokenServes(env: Env, p: AgentPolicy, a: Attempt, b: Attempt, token: string)
    requires p.enabled && p.Valid() && a.Valid() && Refused(env, p, EMPTY_STORE, a)
    requires EscalationToken(env.hash, a.path, EvaluationAt(env, p, EMPTY_STORE, a)) == Some(token)
    requires forall st: Store :: token in st.approvals ==> !Refused(env, p, st, b)
    ensures OneApprovalServesBoth(env, p, a, b, token)
  {
    AfterApproval(env, EMPTY_STORE, CheckFile(p, a), p, a, token);
  }

  lemma FirstIsRefused(env: Env, rules: seq<RuleId>, a: Attempt)
    requires AllNamed(rules, a.findings) && a.findings != []
    ensures Refused(env, EscalateOnly(rules), EMPTY_STORE, a)
    ensures EscalationToken(env.hash, a.path, EvaluationAt(env, EscalateOnly(rules), EMPTY_STORE, a))
            == Some(env.hash(a.path, FindingsText(a.findings)))
  {
    EscalateOnlyJudges(env, rules, EMPTY_STORE, a);
    EscalateOnlyToken(env, rules, EMPTY_STORE, a);
    PassesIffApproved(env, EscalateOnly(rules), EMPTY_STORE, a);
  }

  lemma StoredPasses(env: Env, rules: seq<RuleId>, st: Store, b: Attempt)
    requires AllNamed(rules, b.findings) && b.findings != []
    requires env.hash(b.path, FindingsText(b.findings)) in st.approvals
    ensures !Refused(env, EscalateOnly(rules), st, b)
  {
    EscalateOnlyJudges(env, rules, st, b);
    EscalateOnlyToken(env, rules, st, b);
    PassesIffApproved(env, EscalateOnly(rules), st, b);
  }

  /** From an empty store: `a` is refused, its token is approved, and `b` is let through. */
  predicate OneApprovalServesBoth(env: Env, p: AgentPolicy, a: Attempt, b: Attempt, token: string)
    requires p.Valid() && a.Valid()
  {
    && Refused(env, p, EMPTY_STORE, a)
    && EscalationToken(env.hash, a.path, EvaluationAt(env, p, EMPTY_STORE, a)) == Some(token)
    && !Refused(env, p, Run(env, EMPTY_STORE, [CheckFile(p, a), Approve(token)]), b)
  }

  /** Approved with one content, let through with another. */
  lemma ApprovedForOtherContent(env: Env, path: string, f: Finding)
    requires IsRuleId(f.rule)
    ensures var a, b := Attempt(path, Some("x"), [f], true), Attempt(path, Some("y"), [f], true);
            && a.AsWrite(path) != b.AsWrite(path)
            && OneApprovalServesBoth(env, EscalateOnly([f.rule]), a, b, env.hash(path, FindingsText([f])))
  {
    assert "x"[0] != "y"[0];
    TwinPasses(env, [f.rule], Attempt(path, Some("x"), [f], true), Attempt(path, Some("y"), [f], true));
  }

  /** Approved for one finding, let through with two others: the first spells the second out in its message. */
  lemma ApprovedForOtherFindings(env: Env, path: string, f: Finding, h: Finding)
    requires IsRuleId(f.rule) && IsRuleId(h.rule) && Text.Leq(Part(f), Part(h))
    ensures var a, b := Attempt(path, None, [Spelled(f, h)], true), Attempt(path, None, [f, h], true);
            && Keys(a.findings) != Keys(b.findings)
            && OneApprovalServesBoth(env, EscalateOnly([f.rule, h.rule]), a, b, env.hash(path, FindingsText([f, h])))
  {
    SeparatorForgesText(f, h);
    TwinPasses(env, [f.rule, h.rule], Attempt(path, None, [Spelled(f, h)], true), Attempt(path, None, [f, h], true));
  }

  /** A write an approval lets through interrupts every streak of denials. */
  lemma ApprovedWriteClearsStreaks(env: Env, st: Store, ev: Event, p: AgentPolicy, a: Attempt)
    requires ev.Valid() && JudgedBy(ev) == Some((p, a))
    requires EvaluationAt(env, p, st, a).IsDenied() && !Refused(env, p, st, a)
    ensures Step(env, st, ev).0.breaker == map[]
    ensures Step(env, st, ev).1.Judged? && Step(env, st, ev).1.tripped == {}
  {
    StepJudges(env, st, ev);
    PassesIffApproved(env, p, st, a);
    assert BlockedRules(EvaluationOf(JudgeStep(env, p, st, a).1)) == {};
  }

  // ---------------------------------------------------------------------------
  // Streaks
  // ---------------------------------------------------------------------------

  /** The evaluation an event folds into the breaker, if it does. */
  function BreakerInput(env: Env, st: Store, ev: Event): Option<Evaluation> {
    match ev
    case HookWithoutFile => Some(Evaluation([]))
    case HookWrite(p, _, a) =>
      Some(if p.enabled then EvaluationOf(JudgeStep(env, p, st, a).1) else Evaluation([]))
    case CheckFile(p, a) => if p.enabled then Some(EvaluationOf(JudgeStep(env, p, st, a).1)) else None
    case AgentWrite(p, _, a) => Some(EvaluationOf(JudgeStep(env, p, st, a).1))
    case _ => None
  }

  function BreakerInputs(env: Env, st: Store, evs: seq<Event>): seq<Evaluation>
    requires ValidEvents(evs)
  {
    if evs == [] then []
    else
      var earlier := evs[..|evs| - 1];
      var rest, last := BreakerInputs(env, st, earlier), BreakerInput(env, Run(env, st, earlier), evs[|evs| - 1]);
      if last.Some? then rest + [last.value] else rest
  }

  function TrackedWrites(evs: seq<Event>): seq<Write> {
    if evs == [] then []
    else
      var rest, last := TrackedWrites(evs[..|evs| - 1]), evs[|evs| - 1];
      if JudgedBy(last).Some? then rest + [WriteOf(last)] else rest
  }

  lemma StreaksStep(env: Env, st: Store, ev: Event)
    requires ev.Valid()
    ensures Step(env, st, ev).0.breaker
            == if BreakerInput(env, st, ev).Some? then Recorded(st.breaker, BreakerInput(env, st, ev).value)
               else st.breaker
    ensures Step(env, st, ev).0.loops
            == if JudgedBy(ev).Some? then LoopStep(env.hash, st.loops, WriteOf(ev)) else st.loops
  {
    if JudgedBy(ev).Some? {
      StepJudges(env, st, ev);
    }
  }

  /** The persisted streaks are those of the whole history, from an empty store. */
  lemma {:induction false} StreaksAreHistory(env: Env, st: Store, evs: seq<Event>)
    requires ValidEvents(evs)
    requires st.breaker == map[] && st.loops == LoopState(None, 0)
    ensures Run(env, st, evs).breaker == Breaker.After(BreakerInputs(env, st, evs))
    ensures Run(env, st, evs).loops == LoopAfter(env.hash, TrackedWrites(evs))
  {
    if evs != [] {
      var earlier, last := evs[..|evs| - 1], evs[|evs| - 1];
      StreaksAreHistory(env, st, earlier);
      StreaksStep(env, Run(env, st, earlier), last);
      var inputs, writes := BreakerInputs(env, st, earlier), TrackedWrites(earlier);
      if BreakerInput(env, Run(env, st, earlier), last).Some? {
        var e := BreakerInput(env, Run(env, st, earlier), last).value;
        assert (inputs + [e])[..|inputs|] == inputs;
      }
      if JudgedBy(last).Some? {
        assert (writes + [WriteOf(last)])[..|writes|] == writes;
      }
    }
  }

  /** However often it is judged on the way, one write is one signature: the loop guard counts judgements. */
  lemma {:induction false} EveryJudgementCounts(env: Env, st: Store, evs: seq<Event>, w: Write)
    requires ValidEvents(evs) && evs != []
    requires forall i :: 0 <= i < |evs| ==> JudgedBy(evs[i]).Some? && WriteOf(evs[i]) == w
    ensures Run(env, st, evs).loops == LoopState(Some(env.hash(w.path, w.content)), |evs| + CountBefore(env, st, w))
  {
    var earlier, last := evs[..|evs| - 1], evs[|evs| - 1];
    StepJudges(env, Run(env, st, earlier), last);
    if earlier != [] {
      EveryJudgementCounts(env, st, earlier, w);
    }
  }

  /** How often the guard has just seen a write already. */
  function CountBefore(env: Env, st: Store, w: Write): nat {
    if st.loops.signature == Some(env.hash(w.path, w.content)) then st.loops.count else 0
  }

  /** A hook-hosted write that lands is judged twice, before it and after it. */
  function Landings(pre: Event, post: Event, n: nat): seq<Event> {
    seq(2 * n, i requires 0 <= i => if i % 2 == 0 then pre else post)
  }

  predicate IsLanding(pre: Event, post: Event) {
    && pre.HookWrite? && !pre.landed && post.HookWrite? && post.landed
    && pre.Valid() && post.Valid() && pre.policy.enabled && post.policy.enabled
    && WriteOf(pre) == WriteOf(post)
  }

  /** The exact count: landing one write `n` times counts `2 n`, and the next attempt is one more. */
  lemma LandedWritesCountTwice(env: Env, st: Store, pre: Event, post: Event, n: nat)
    requires IsLanding(pre, post) && n > 0
    ensures ValidEvents(Landings(pre, post, n))
    ensures var now := Run(env, st, Landings(pre, post, n));
            && now.loops.count == 2 * n + CountBefore(env, st, WriteOf(pre))
            && Step(env, now, pre).1.Judged?
            && Step(env, now, pre).1.loopCount == 2 * n + 1 + CountBefore(env, st, WriteOf(pre))
  {
    var evs := Landings(pre, post, n);
    EveryJudgementCounts(env, st, evs, WriteOf(pre));
    StepJudges(env, Run(env, st, evs), pre);
  }

  /** So the first retry of a write that landed already trips the alarm, whatever came before. */
  lemma FirstRetryOfLandedWriteTrips(env: Env, st: Store, pre: Event, post: Event)
    requires IsLanding(pre, post)
    ensures var out := Step(env, Run(env, st, Landings(pre, post, 1)), pre).1;
            out.Judged? && out.loopCount >= LOOP_TRIP_THRESHOLD
  {
    LandedWritesCountTwice(env, st, pre, post, 1);
  }

  // ---------------------------------------------------------------------------
  // The built-in agent's own guard
  // ---------------------------------------------------------------------------

  /** The writes of the built-in agent that were let through, which is all its own guard is told of. */
  function AcceptedWrites(env: Env, st: Store, evs: seq<Event>): seq<Write>
    requires ValidEvents(evs)
  {
    if evs == [] then []
    else
      var earlier, last := evs[..|evs| - 1], evs[|evs| - 1];
      var rest := AcceptedWrites(env, st, earlier);
      if Accepted(env, Run(env, st, earlier), last) then rest + [WriteOf(last)] else rest
  }

  predicate Accepted(env: Env, st: Store, ev: Event) {
    ev.AgentWrite? && !Refused(env, ev.policy, st, ev.attempt)
  }

  predicate AllAccepted(env: Env, st: Store, evs: seq<Event>)
    requires ValidEvents(evs)
  {
    evs == []
    || (AllAccepted(env, st, evs[..|evs| - 1]) && Accepted(env, Run(env, st, evs[..|evs| - 1]), evs[|evs| - 1]))
  }

  lemma {:induction false} AllAcceptedAreTracked(env: Env, st: Store, evs: seq<Event>)
    requires ValidEvents(evs) && AllAccepted(env, st, evs)
    ensures AcceptedWrites(env, st, evs) == TrackedWrites(evs)
  {
    if evs != [] {
      AllAcceptedAreTracked(env, st, evs[..|evs| - 1]);
    }
  }

  /** While no write is refused and no neighbours collide, the agent's guard and the persisted one count alike. */
  lemma AgentGuardsAgree(env: Env, st: Store, evs: seq<Event>)
    requires ValidEvents(evs) && AllAccepted(env, st, evs)
    requires st.breaker == map[] && st.loops == LoopState(None, 0)
    requires NoCollision(env.hash, TrackedWrites(evs)) && |TrackedWrites(evs)| <= U32_MAX
    ensures Run(env, st, evs).loops.count == RepeatAfter(AcceptedWrites(env, st, evs)).streak
  {
    AllAcceptedAreTracked(env, st, evs);
    StreaksAreHistory(env, st, evs);
    GuardsAgree(env.hash, TrackedWrites(evs));
  }

  /** Refused retries count in the persisted guard only. */
  lemma RefusedRetriesUnseen(env: Env, st: Store, ev: Event, p: AgentPolicy, a: Attempt, n: nat)
    requires ev.Valid() && ev.AgentWrite? && JudgedBy(ev) == Some((p, a)) && p.Tightens()
    requires Refused(env, p, st, a)
    ensures Run(env, st, Retry(ev, n)).loops.count >= n || n == 0
    ensures AcceptedWrites(env, st, Retry(ev, n)) == []
  {
    RetriesAccumulate(env, st, ev, p, a, n);
    NoRetryAccepted(env, st, ev, p, a, n);
  }

  lemma {:induction false} NoRetryAccepted(env: Env, st: Store, ev: Event, p: AgentPolicy, a: Attempt, n: nat)
    requires ev.Valid() && JudgedBy(ev) == Some((p, a)) && p.Tightens()
    requires Refused(env, p, st, a)
    ensures AcceptedWrites(env, st, Retry(ev, n)) == []
  {
    if n > 0 {
      NoRetryAccepted(env, st, ev, p, a, n - 1);
      RetriesAccumulate(env, st, ev, p, a, n - 1);
      assert Retry(ev, n)[..n - 1] == Retry(ev, n - 1) && Retry(ev, n)[n - 1] == ev;
    }
  }

  lemma RunThree(env: Env, st: Store, x: Event, y: Event)
    requires x.Valid() && y.Valid()
    ensures ValidEvents([x]) && ValidEvents([x, y]) && ValidEvents([x, y, x])
    ensures Run(env, st, [x]) == Step(env, st, x).0
    ensures Run(env, st, [x, y]) == Step(env, Run(env, st, [x]), y).0
    ensures Run(env, st, [x, y, x]) == Step(env, Run(env, st, [x, y]), x).0
  {
    assert [x] == [] + [x] && [x, y] == [x] + [y] && [x, y, x] == [x, y] + [x];
    RunSnoc(env, st, [], x);
    RunSnoc(env, st, [x], y);
    RunSnoc(env, st, [x, y], x);
  }

  lemma PersistedRestarts(env: Env, st: Store, x: Event, y: Event)
    requires x.Valid() && y.Valid() && JudgedBy(x).Some? && JudgedBy(y).Some?
    requires env.hash(WriteOf(x).path, WriteOf(x).content) != env.hash(WriteOf(y).path, WriteOf(y).content)
    ensures ValidEvents([x, y, x]) && Run(env, st, [x, y, x]).loops.count == 1
  {
    RunThree(env, st, x, y);
    StepJudges(env, Run(env, st, [x]), y);
    StepJudges(env, Run(env, st, [x, y]), x);
  }

  lemma SessionGoesOn(env: Env, st: Store, x: Event, y: Event)
    requires x.Valid() && y.Valid() && x.AgentWrite? && y.AgentWrite?
    requires Accepted(env, st, x) && !Accepted(env, Step(env, st, x).0, y)
    requires Accepted(env, Step(env, Step(env, st, x).0, y).0, x)
    ensures ValidEvents([x, y, x]) && RepeatAfter(AcceptedWrites(env, st, [x, y, x])).streak == 2
  {
    AcceptedAround(env, st, x, y);
    TwiceIsTwo(WriteOf(x));
  }

  lemma TwiceIsTwo(w: Write)
    ensures RepeatAfter([w, w]).streak == 2
  {
    assert [w, w][..1] == [w] && [w][..0] == [];
    assert RepeatAfter([w]) == RepeatState(Some(w), 1);
  }

  lemma AcceptedAround(env: Env, st: Store, x: Event, y: Event)
    requires x.Valid() && y.Valid() && x.AgentWrite? && y.AgentWrite?
    requires Accepted(env, st, x) && !Accepted(env, Step(env, st, x).0, y)
    requires Accepted(env, Step(env, Step(env, st, x).0, y).0, x)
    ensures ValidEvents([x, y, x]) && AcceptedWrites(env, st, [x, y, x]) == [WriteOf(x), WriteOf(x)]
  {
    RunThree(env, st, x, y);
    AcceptedFirst(env, st, x);
    AcceptedSecond(env, st, x, y);
    AcceptedThird(env, st, x, y);
  }

  lemma AcceptedFirst(env: Env, st: Store, x: Event)
    requires x.Valid() && Accepted(env, st, x)
    ensures ValidEvents([x]) && AcceptedWrites(env, st, [x]) == [WriteOf(x)]
  {
    AcceptedNext(env, st, [], st, x);
    assert [] + [x] == [x];
  }

  lemma AcceptedSecond(env: Env, st: Store, x: Event, y: Event)
    requires ValidEvents([x]) && y.Valid() && !Accepted(env, Run(env, st, [x]), y)
    ensures ValidEvents([x, y]) && AcceptedWrites(env, st, [x, y]) == AcceptedWrites(env, st, [x])
  {
    AcceptedNext(env, st, [x], Run(env, st, [x]), y);
    assert [x] + [y] == [x, y];
  }

  lemma AcceptedThird(env: Env, st: Store, x: Event, y: Event)
    requires ValidEvents([x, y]) && x.Valid() && Accepted(env, Run(env, st, [x, y]), x)
    ensures ValidEvents([x, y, x])
    ensures AcceptedWrites(env, st, [x, y, x]) == AcceptedWrites(env, st, [x, y]) + [WriteOf(x)]
  {
    AcceptedNext(env, st, [x, y], Run(env, st, [x, y]), x);
    assert [x, y] + [x] == [x, y, x];
  }

  /** One event more, judged in the store after the history. */
  lemma AcceptedNext(env: Env, st: Store, evs: seq<Event>, now: Store, ev: Event)
    requires ValidEvents(evs) && ev.Valid() && now == Run(env, st, evs)
    ensures ValidEvents(evs + [ev])
    ensures AcceptedWrites(env, st, evs + [ev])
            == if Accepted(env, now, ev) then AcceptedWrites(env, st, evs) + [WriteOf(ev)]
               else AcceptedWrites(env, st, evs)
  {
    assert (evs + [ev])[..|evs|] == evs;
  }

  lemma CleanWritePasses(env: Env, rules: seq<RuleId>, st: Store, a: Attempt)
    requires a.findings == []
    ensures !Refused(env, EscalateOnly(rules), st, a)
    ensures JudgeStep(env, EscalateOnly(rules), st, a).0.approvals == st.approvals
  {
    VerdictIff(env.globs, EscalateOnly(rules), a.path, a.findings, ProvenanceFor(st.touched, a.path), a.covered);
    PassesIffApproved(env, EscalateOnly(rules), st, a);
  }

  lemma EscalatedWriteIsRefused(env: Env, rules: seq<RuleId>, st: Store, a: Attempt)
    requires AllNamed(rules, a.findings) && a.findings != [] && st.approvals == {}
    ensures Refused(env, EscalateOnly(rules), st, a)
  {
    EscalateOnlyJudges(env, rules, st, a);
    PassesIffApproved(env, EscalateOnly(rules), st, a);
  }

  /** A refused write between two identical accepted ones restarts the persisted guard and is unseen by the other. */
  lemma RefusalRestartsPersisted(env: Env, path: string, f: Finding)
    requires IsRuleId(f.rule) && env.hash(path, "x") != env.hash(path, "y")
    ensures var p := EscalateOnly([f.rule]);
            var x := AgentWrite(p, path, Attempt(path, Some("x"), [], true));
            var y := AgentWrite(p, path, Attempt(path, Some("y"), [f], true));
            && Run(env, EMPTY_STORE, [x, y, x]).loops.count == 1
            && RepeatAfter(AcceptedWrites(env, EMPTY_STORE, [x, y, x])).streak == 2
  {
    var p := EscalateOnly([f.rule]);
    var x := AgentWrite(p, path, Attempt(path, Some("x"), [], true));
    var y := AgentWrite(p, path, Attempt(path, Some("y"), [f], true));
    var st1 := Step(env, EMPTY_STORE, x).0;
    PersistedRestarts(env, EMPTY_STORE, x, y);
    CleanWritePasses(env, [f.rule], EMPTY_STORE, x.attempt);
    StepJudges(env, EMPTY_STORE, x);
    EscalatedWriteIsRefused(env, [f.rule], st1, y.attempt);
    CleanWritePasses(env, [f.rule], Step(env, st1, y).0, x.attempt);
    SessionGoesOn(env, EMPTY_STORE, x, y);
  }

  // ---------------------------------------------------------------------------
  // The execution gate
  // ---------------------------------------------------------------------------

  /** The event lands a write to a path that has to be proven by a test run. */
  predicate Lands(env: Env, ev: Event, path: string)
    requires ev.Valid()
  {
    && ev.HookWrite? && ev.landed && ev.policy.enabled && ev.attempt.path == path
    && TestRequiredReason(env.globs, ev.policy, path).Some?
  }

  /** The event is a test run that counts. */
  predicate Proves(env: Env, ev: Event) {
    ev.BashRun? && ev.policy.enabled && Credits(env, ev.policy, ev.command, ev.response)
  }

  predicate ProvenSince(env: Env, evs: seq<Event>, i: nat) {
    exists j {:trigger evs[j]} :: i <= j < |evs| && Proves(env, evs[j])
  }

  /** Written at some point of the history (or pending from before) with no counted test run since. */
  predicate Outstanding(env: Env, st: Store, evs: seq<Event>, path: string)
    requires ValidEvents(evs)
  {
    || (path in st.pending && !ProvenSince(env, evs, 0))
    || exists i :: 0 <= i < |evs| && LandsUnproven(env, evs, i, path)
  }

  predicate LandsUnproven(env: Env, evs: seq<Event>, i: nat, path: string)
    requires ValidEvents(evs) && i < |evs|
  {
    Lands(env, evs[i], path) && !ProvenSince(env, evs, i + 1)
  }

  lemma PendingStep(env: Env, st: Store, ev: Event, path: string)
    requires ev.Valid()
    ensures path in Step(env, st, ev).0.pending
            <==> Lands(env, ev, path) || (path in st.pending && !Proves(env, ev))
  {
  }

  lemma ProvenSinceSnoc(env: Env, evs: seq<Event>, ev: Event, i: nat)
    requires i <= |evs|
    ensures ProvenSince(env, evs + [ev], i) <==> ProvenSince(env, evs, i) || Proves(env, ev)
  {
    if j :| i <= j < |evs| && Proves(env, evs[j]) {
      assert (evs + [ev])[j] == evs[j];
    }
    if Proves(env, ev) {
      assert (evs + [ev])[|evs|] == ev;
    }
  }

  lemma OutstandingSnoc(env: Env, st: Store, evs: seq<Event>, ev: Event, path: string)
    requires ValidEvents(evs) && ev.Valid() && ValidEvents(evs + [ev])
    ensures Outstanding(env, st, evs + [ev], path)
            <==> Lands(env, ev, path) || (Outstanding(env, st, evs, path) && !Proves(env, ev))
  {
    var all := evs + [ev];
    ProvenSinceSnoc(env, evs, ev, 0);
    forall i | 0 <= i < |evs|
      ensures LandsUnproven(env, all, i, path) <==> LandsUnproven(env, evs, i, path) && !Proves(env, ev)
    {
      ProvenSinceSnoc(env, evs, ev, i + 1);
      assert all[i] == evs[i];
    }
    assert LandsUnproven(env, all, |evs|, path) <==> Lands(env, ev, path);
  }

  /** The ledger is exactly the writes that no counted test run has followed. */
  lemma {:induction false} PendingIsOutstanding(env: Env, st: Store, evs: seq<Event>, path: string)
    requires ValidEvents(evs)
    ensures path in Run(env, st, evs).pending <==> Outstanding(env, st, evs, path)
  {
    if evs != [] {
      var earlier, last := evs[..|evs| - 1], evs[|evs| - 1];
      PendingIsOutstanding(env, st, earlier, path);
      PendingStep(env, Run(env, st, earlier), last, path);
      OutstandingSnoc(env, st, earlier, last, path);
      assert evs == earlier + [last];
    }
  }

  /** Outstanding, and covered by the policy in force at the end. */
  predicate StillUnproven(env: Env, st: Store, evs: seq<Event>, p: AgentPolicy, path: string)
    requires ValidEvents(evs) && p.Valid()
  {
    Outstanding(env, st, evs, path) && TestRequiredReason(env.globs, p, path).Some?
  }

  /** A session may end unless some outstanding path is still covered by the policy in force at the end. */
  lemma StopBlocksIff(env: Env, st: Store, evs: seq<Event>, p: AgentPolicy)
    requires ValidEvents(evs) && p.Valid()
    ensures var out := Step(env, Run(env, st, evs), Stop(p)).1;
            && (out.StopBlocked? <==> p.enabled && exists path :: StillUnproven(env, st, evs, p, path))
            && (out.StopBlocked? ==> forall path :: path in out.paths <==> StillUnproven(env, st, evs, p, path))
  {
    var now := Run(env, st, evs);
    forall path
      ensures path in Unproven(env, p, now) <==> StillUnproven(env, st, evs, p, path)
    {
      PendingIsOutstanding(env, st, evs, path);
    }
    if p.enabled && Unproven(env, p, now) != {} {
      var path :| path in Unproven(env, p, now);
    }
  }
}
