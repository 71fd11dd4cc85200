/** The per-rule circuit breaker (core/agent-policy/src/lib.rs) and its persisted form (bin/cli/src/hook.rs). */
module Breaker {
  import opened Profiles
  import opened Policy
  import opened RunLength

  const TRIP_THRESHOLD: nat := 3

  type Counts = map<RuleId, nat>

  /** One line of the state file. */
  datatype Entry = Entry(rule: string, count: nat)

  function CountFor(counts: Counts, rule: RuleId): nat {
    if rule in counts then counts[rule] else 0
  }

  function Recorded(counts: Counts, e: Evaluation): Counts {
    map r | r in BlockedRules(e) :: CountFor(counts, r) + 1
  }

  function TrippedRules(counts: Counts, e: Evaluation): set<RuleId> {
    set r | r in BlockedRules(e) && CountFor(counts, r) + 1 >= TRIP_THRESHOLD
  }

  /** Reading a state file: entries that are not rule ids are skipped, later entries win. */
  function FromEntries(entries: seq<Entry>): Counts {
    if entries == [] then map[]
    else
      var last, rest := entries[|entries| - 1], FromEntries(entries[..|entries| - 1]);
      if IsRuleId(last.rule) then rest[last.rule := last.count] else rest
  }

  function Rules(entries: seq<Entry>): set<string> {
    set e | e in entries :: e.rule
  }

  predicate DistinctRules(entries: seq<Entry>) {
    entries == []
    || (DistinctRules(entries[..|entries| - 1]) && entries[|entries| - 1].rule !in Rules(entries[..|entries| - 1]))
  }

  /** A state file holding exactly these counts, in whatever order the hash map yields them. */
  ghost predicate Enumerates(entries: seq<Entry>, counts: Counts) {
    && DistinctRules(entries)
    && (forall e :: e in entries ==> e.rule in counts && counts[e.rule] == e.count)
    && counts.Keys == Rules(entries)
  }

  class CircuitBreaker {
    var consecutiveDenials: Counts

    constructor FromCounts(counts: Counts)
      ensures consecutiveDenials == counts
    {
      consecutiveDenials := counts;
    }

    /** Folds one evaluation in and reports the rules at or over the threshold. */
    method Record(e: Evaluation) returns (tripped: set<RuleId>)
      modifies this
      ensures consecutiveDenials == Recorded(old(consecutiveDenials), e)
      ensures tripped == TrippedRules(old(consecutiveDenials), e)
    {
      var denied := Denied(e);
      ghost var before := consecutiveDenials;
      consecutiveDenials := map r | r in consecutiveDenials && r in denied :: consecutiveDenials[r];
      tripped := {};
      var todo := denied;
      ghost var done: set<RuleId> := {};
      ProgressEnds(before, denied);
      while todo != {}
        invariant done !! todo && done + todo == denied
        invariant consecutiveDenials == Progress(before, denied, done)
        invariant tripped == TrippedAmong(before, done)
      {
        var rule :| rule in todo;
        ProgressStep(before, denied, done, rule);
        TrippedStep(before, done, rule);
        todo, done := todo - {rule}, done + {rule};
        var count := CountFor(consecutiveDenials, rule) + 1;
        consecutiveDenials := consecutiveDenials[rule := count];
        if count >= TRIP_THRESHOLD {
          tripped := tripped + {rule};
        }
      }
    }

    method Save() returns (entries: seq<Entry>)
      ensures Enumerates(entries, consecutiveDenials)
    {
      entries := [];
      ghost var counts := consecutiveDenials;
      var todo := consecutiveDenials;
      while todo != map[]
        invariant SavedSoFar(entries, todo, counts)
        decreases todo.Keys
      {
        var rule :| rule in todo;
        SaveStep(entries, todo, counts, rule);
        entries := entries + [Entry(rule, todo[rule])];
        todo := todo - {rule};
      }
    }
  }

  /** Some of the counts are written, the others are still to do. */
  ghost predicate SavedSoFar(entries: seq<Entry>, todo: Counts, counts: Counts) {
    && DistinctRules(entries)
    && Rules(entries) + todo.Keys == counts.Keys && Rules(entries) !! todo.Keys
    && (forall r :: r in todo ==> r in counts && todo[r] == counts[r])
    && (forall e :: e in entries ==> e.rule in counts && counts[e.rule] == e.count)
  }

  lemma SaveStep(entries: seq<Entry>, todo: Counts, counts: Counts, rule: RuleId)
    requires SavedSoFar(entries, todo, counts) && rule in todo
    ensures SavedSoFar(entries + [Entry(rule, todo[rule])], todo - {rule}, counts)
  {
    var entry := Entry(rule, todo[rule]);
    RulesSnoc(entries, entry);
    assert (entries + [entry])[..|entries|] == entries;
    assert (todo - {rule}).Keys == todo.Keys - {rule};
  }

  /** The counts part way through an evaluation: the rules in `done` have been incremented. */
  function Progress(counts: Counts, denied: set<RuleId>, done: set<RuleId>): Counts {
    map r | r in denied && (r in counts || r in done) :: CountFor(counts, r) + if r in done then 1 else 0
  }

  /** Keeping the rules still denied is where it starts, the recorded counts are where it ends. */
  lemma ProgressEnds(counts: Counts, denied: set<RuleId>)
    ensures Progress(counts, denied, {}) == map r | r in counts && r in denied :: counts[r]
    ensures Progress(counts, denied, denied) == map r | r in denied :: CountFor(counts, r) + 1
  {
  }

  function TrippedAmong(counts: Counts, done: set<RuleId>): set<RuleId> {
    set r | r in done && CountFor(counts, r) + 1 >= TRIP_THRESHOLD
  }

  lemma TrippedStep(counts: Counts, done: set<RuleId>, rule: RuleId)
    ensures TrippedAmong(counts, done + {rule})
            == TrippedAmong(counts, done) + if CountFor(counts, rule) + 1 >= TRIP_THRESHOLD then {rule} else {}
  {
  }

  lemma ProgressStep(counts: Counts, denied: set<RuleId>, done: set<RuleId>, rule: RuleId)
    requires rule in denied && rule !in done
    ensures CountFor(Progress(counts, denied, done), rule) == CountFor(counts, rule)
    ensures Progress(counts, denied, done)[rule := CountFor(counts, rule) + 1]
            == Progress(counts, denied, done + {rule})
  {
  }

  lemma RulesSnoc(entries: seq<Entry>, entry: Entry)
    ensures Rules(entries + [entry]) == Rules(entries) + {entry.rule}
  {
    assert entry in entries + [entry];
    forall r | r in Rules(entries)
      ensures r in Rules(entries + [entry])
    {
      var e :| e in entries && e.rule == r;
      assert e in entries + [entry];
    }
  }

  /** A denial or an escalation of a finding of this rule; warnings and path denials are neither. */
  predicate BlocksRule(v: Violation, r: RuleId) {
    v.enforcement != Warn && v.finding.Some? && v.finding.value.rule == r
  }

  lemma BlockedRulesAre(e: Evaluation, r: RuleId)
    ensures r in BlockedRules(e) <==> exists i :: 0 <= i < |e.violations| && BlocksRule(e.violations[i], r)
  {
    if r in BlockedRules(e) {
      var v :| v in e.violations && v.enforcement in {Deny, Escalate} && v.finding.Some? && v.finding.value.rule == r;
      var i :| 0 <= i < |e.violations| && e.violations[i] == v;
      assert BlocksRule(e.violations[i], r);
    }
  }

  method Denied(e: Evaluation) returns (rules: set<RuleId>)
    ensures rules == BlockedRules(e)
  {
    rules := {};
    for i := 0 to |e.violations|
      invariant rules == BlockedRules(Evaluation(e.violations[..i]))
    {
      var v := e.violations[i];
      assert e.violations[..i + 1] == e.violations[..i] + [v];
      if v.enforcement in {Deny, Escalate} && v.finding.Some? {
        rules := rules + {v.finding.value.rule};
      }
    }
    assert e == Evaluation(e.violations[..|e.violations|]);
  }

  method Load(entries: seq<Entry>) returns (breaker: CircuitBreaker)
    ensures fresh(breaker) && breaker.consecutiveDenials == FromEntries(entries)
  {
    var counts: Counts := map[];
    for i := 0 to |entries|
      invariant counts == FromEntries(entries[..i])
    {
      assert entries[..i + 1][..i] == entries[..i];
      if IsRuleId(entries[i].rule) {
        counts := counts[entries[i].rule := entries[i].count];
      }
    }
    assert entries[..|entries|] == entries;
    breaker := new CircuitBreaker.FromCounts(counts);
  }

  // ---------------------------------------------------------------------------
  // Persistence
  // ---------------------------------------------------------------------------

  lemma {:induction false} FromEntriesHolds(entries: seq<Entry>)
    requires DistinctRules(entries)
    requires forall e :: e in entries ==> IsRuleId(e.rule)
    ensures FromEntries(entries).Keys == Rules(entries)
    ensures forall e :: e in entries ==> e.rule in FromEntries(entries) && FromEntries(entries)[e.rule] == e.count
  {
    if entries != [] {
      var rest, last := entries[..|entries| - 1], entries[|entries| - 1];
      FromEntriesHolds(rest);
      RulesSnoc(rest, last);
      assert entries == rest + [last];
      forall e | e in rest
        ensures e.rule != last.rule
      {
        assert e.rule in Rules(rest);
      }
    }
  }

  /** Saving the counts and reading them back changes nothing, in whatever order they were written. */
  lemma ReloadIsIdentity(entries: seq<Entry>, counts: Counts)
    requires Enumerates(entries, counts)
    requires forall r :: r in counts ==> IsRuleId(r)
    ensures FromEntries(entries) == counts
  {
    FromEntriesHolds(entries);
    forall r | r in counts
      ensures FromEntries(entries)[r] == counts[r]
    {
      assert r in Rules(entries);
      var e :| e in entries && e.rule == r;
    }
  }

  // ---------------------------------------------------------------------------
  // Streaks are run lengths
  // ---------------------------------------------------------------------------

  /** The counts after a history of evaluations, from an empty breaker. */
  function After(history: seq<Evaluation>): Counts {
    if history == [] then map[] else Recorded(After(history[..|history| - 1]), history[|history| - 1])
  }

  function BlockedAt(history: seq<Evaluation>, rule: RuleId): seq<bool> {
    seq(|history|, i requires 0 <= i < |history| => rule in BlockedRules(history[i]))
  }

  /**
   * A rule's count is the length of the longest run of latest evaluations that all block on it,
   * and only the rules the last evaluation blocked on are stored.
   */
  lemma {:induction false} CountIsRunLength(history: seq<Evaluation>, rule: RuleId)
    ensures CountFor(After(history), rule) == SuffixRun(BlockedAt(history, rule))
    ensures rule in After(history) <==> history != [] && rule in BlockedRules(history[|history| - 1])
  {
    if history != [] {
      var rest := history[..|history| - 1];
      CountIsRunLength(rest, rule);
      assert BlockedAt(history, rule)[..|history| - 1] == BlockedAt(rest, rule);
    }
  }

  /** A rule trips exactly when this evaluation and the two before it all block on it. */
  lemma TripsOnThirdInARow(history: seq<Evaluation>, e: Evaluation, rule: RuleId)
    ensures rule in TrippedRules(After(history), e)
            <==>
            && rule in BlockedRules(e)
            && |history| >= 2
            && rule in BlockedRules(history[|history| - 1])
            && rule in BlockedRules(history[|history| - 2])
  {
    if |history| >= 2 {
      var earlier := history[..|history| - 1];
      assert earlier[|earlier| - 1] == history[|history| - 2];
      assert CountFor(After(history), rule) >= 2
        <==> rule in BlockedRules(history[|history| - 1]) && CountFor(After(earlier), rule) >= 1;
    }
  }
}
