/** The turn and token budget of one agent run (core/agent/src/budget.rs, spent by core/agent/src/runtime.rs). */
module Budget {
  import opened Wrappers
  import opened Widths

  function SaturatingSum(a: U64, b: U64): U64 {
    if a + b < U64_MAX then a + b else U64_MAX
  }

  datatype TokenUsage = TokenUsage(input: U64, output: U64) {
    function Total(): U64 {
      SaturatingSum(input, output)
    }
  }

  datatype Limits = Limits(maxTurns: U32, maxTokens: U64)

  datatype Exhaustion = Turns(turnLimit: U32) | Tokens(tokenLimit: U64, spent: U64)

  datatype Spending = Spending(turns: U32, tokens: U64)

  function Spend(s: Spending, usage: TokenUsage): Spending {
    Spending(if s.turns < U32_MAX then s.turns + 1 else U32_MAX, SaturatingSum(s.tokens, usage.Total()))
  }

  function ExhaustedBy(s: Spending, limits: Limits): Option<Exhaustion> {
    if s.turns >= limits.maxTurns then Some(Turns(limits.maxTurns))
    else if s.tokens >= limits.maxTokens then Some(Tokens(limits.maxTokens, s.tokens))
    else None
  }

  class Ledger {
    var turns: U32
    var tokens: U64

    ghost function Spent(): Spending
      reads this
    {
      Spending(turns, tokens)
    }

    constructor ()
      ensures Spent() == Spending(0, 0)
    {
      turns, tokens := 0, 0;
    }

    method RecordTurn(usage: TokenUsage)
      modifies this
      ensures Spent() == Spend(old(Spent()), usage)
    {
      turns := if turns < U32_MAX then turns + 1 else U32_MAX;
      tokens := SaturatingSum(tokens, usage.Total());
    }

    method Exhausted(limits: Limits) returns (e: Option<Exhaustion>)
      ensures e == ExhaustedBy(Spent(), limits)
      ensures e.None? <==> turns < limits.maxTurns && tokens < limits.maxTokens
    {
      if turns >= limits.maxTurns {
        return Some(Turns(limits.maxTurns));
      }
      if tokens >= limits.maxTokens {
        return Some(Tokens(limits.maxTokens, tokens));
      }
      return None;
    }
  }

  // ---------------------------------------------------------------------------
  // Runs
  // ---------------------------------------------------------------------------

  function After(usages: seq<TokenUsage>): Spending {
    if usages == [] then Spending(0, 0) else Spend(After(usages[..|usages| - 1]), usages[|usages| - 1])
  }

  /** Every turn was asked for while the budget still had room. */
  predicate Admitted(limits: Limits, usages: seq<TokenUsage>) {
    usages == []
    || (Admitted(limits, usages[..|usages| - 1]) && ExhaustedBy(After(usages[..|usages| - 1]), limits).None?)
  }

  /** The tokens really used, with no ceiling on the sum. */
  function Used(usages: seq<TokenUsage>): nat {
    if usages == [] then 0
    else Used(usages[..|usages| - 1]) + usages[|usages| - 1].input + usages[|usages| - 1].output
  }

  /** The ledger counts turns and tokens, each up to the width of its counter. */
  lemma {:induction false} SpendingIsSum(usages: seq<TokenUsage>)
    ensures After(usages).turns == if |usages| < U32_MAX then |usages| else U32_MAX
    ensures After(usages).tokens == if Used(usages) < U64_MAX then Used(usages) else U64_MAX
  {
    if usages != [] {
      SpendingIsSum(usages[..|usages| - 1]);
    }
  }

  /**
   * Which ceiling a history of turns has reached: the turn count outranks the tokens, and what is
   * reported as spent is what was really used, up to the width of the counter.
   */
  lemma ExhaustedIff(usages: seq<TokenUsage>, limits: Limits)
    ensures var e := ExhaustedBy(After(usages), limits);
            && (e.None? <==> |usages| < limits.maxTurns && Used(usages) < limits.maxTokens)
            && (e == Some(Turns(limits.maxTurns)) <==> |usages| >= limits.maxTurns)
            && (forall spent :: e == Some(Tokens(limits.maxTokens, spent))
                  <==> (&& |usages| < limits.maxTurns && Used(usages) >= limits.maxTokens
                        && spent == if Used(usages) < U64_MAX then Used(usages) else U64_MAX))
  {
    SpendingIsSum(usages);
  }

  /** A budget that is exhausted stays exhausted, whatever is spent on top. */
  lemma {:induction false} ExhaustionPersists(usages: seq<TokenUsage>, more: seq<TokenUsage>, limits: Limits)
    requires ExhaustedBy(After(usages), limits).Some?
    ensures ExhaustedBy(After(usages + more), limits).Some?
    decreases |more|
  {
    if more == [] {
      assert usages + more == usages;
    } else {
      var n := |more| - 1;
      assert (usages + more)[..|usages + more| - 1] == usages + more[..n];
      ExhaustionPersists(usages, more[..n], limits);
    }
  }

  /** A run stays within its turns, and all but its last turn within its tokens: nothing more is enforced. */
  lemma {:induction false} AdmittedIff(limits: Limits, usages: seq<TokenUsage>)
    ensures Admitted(limits, usages)
            <==>
            || usages == []
            || (|usages| <= limits.maxTurns && Used(usages[..|usages| - 1]) < limits.maxTokens)
  {
    if usages != [] {
      var rest := usages[..|usages| - 1];
      AdmittedIff(limits, rest);
      SpendingIsSum(rest);
    }
  }

  /** A first turn that costs one token more than the ceiling is admitted and charged. */
  lemma OneTurnOverruns(limits: Limits)
    requires limits.maxTurns > 0 && 0 < limits.maxTokens < U64_MAX
    ensures var usages := [TokenUsage(limits.maxTokens + 1, 0)];
            Admitted(limits, usages) && After(usages).tokens == limits.maxTokens + 1
  {
    var usages := [TokenUsage(limits.maxTokens + 1, 0)];
    assert usages[..0] == [];
    AdmittedIff(limits, usages);
    SpendingIsSum(usages);
  }

  /**
   * A run can be charged for more tokens than its ceiling: the check precedes a turn whose cost is
   * not known yet. Only a budget that admits no turn, or a ceiling no counter can exceed, rules it out.
   */
  lemma CeilingHoldsIff(limits: Limits)
    ensures (forall usages :: Admitted(limits, usages) ==> After(usages).tokens <= limits.maxTokens)
            <==> limits.maxTurns == 0 || limits.maxTokens in {0, U64_MAX}
  {
    if limits.maxTurns == 0 || limits.maxTokens == 0 {
      forall usages | Admitted(limits, usages)
        ensures After(usages).tokens <= limits.maxTokens
      {
        AdmittedIff(limits, usages);
      }
    } else if limits.maxTokens < U64_MAX {
      OneTurnOverruns(limits);
    }
  }
}
