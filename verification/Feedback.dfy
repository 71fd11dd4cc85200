/**
 * Waiting out late pull-request feedback (core/agent/src/feedback.rs): the timed polling state
 * machine, as the object the caller drives and as a function from states to states.
 */
module Feedback {
  import opened Wrappers

  // ---------------------------------------------------------------------------
  // Durations and the backoff schedule
  // ---------------------------------------------------------------------------

  /** The largest `std::time::Duration`, in nanoseconds; sums and products saturate there. */
  const MAX_DURATION: nat := 0xFFFF_FFFF_FFFF_FFFF * 1_000_000_000 + 999_999_999

  lemma MaxDurationValue()
    ensures MAX_DURATION == 18_446_744_073_709_551_615_999_999_999
  {
  }

  type Duration = n: nat | n <= MAX_DURATION

  function Min(a: nat, b: nat): nat {
    if a < b then a else b
  }

  function SaturatingAdd(a: Duration, b: Duration): Duration {
    Min(a + b, MAX_DURATION)
  }

  /** `d` doubled `n` times, that is `d * 2^n`. */
  function Doubled(d: nat, n: nat): nat {
    if n == 0 then d else 2 * Doubled(d, n - 1)
  }

  datatype WatchPolicy = WatchPolicy(
    firstDelay: Duration, maxDelay: Duration, window: Duration, settle: Duration, maxFailures: nat)

  /** The delay after `attempt` earlier ones: doubled each time up to the sixteenth, never above the maximum. */
  function DelayFor(policy: WatchPolicy, attempt: nat): Duration {
    Min(Min(Doubled(policy.firstDelay, Min(attempt, 16)), MAX_DURATION), policy.maxDelay)
  }

  // ---------------------------------------------------------------------------
  // Items, polls and outcomes
  // ---------------------------------------------------------------------------

  datatype FeedbackSource = ReviewComment | IssueComment | Review | CheckRun

  datatype ItemVerdict = Clean | NeedsWork | Neutral

  datatype FeedbackItem = FeedbackItem(
    id: string, source: FeedbackSource, author: string, body: string, bot: bool, verdict: ItemVerdict)
  {
    predicate IsActionable() {
      verdict == NeedsWork || !bot
    }
  }

  datatype Poll = Observed(items: seq<FeedbackItem>, outstanding: nat) | Unavailable(reason: string)

  /** Why a watch could not conclude. */
  datatype Doubt =
    | GaveUp(failures: nat, last: string)
    | StillRunning(outstanding: nat)
    | Unverified(lastError: Option<string>)

  datatype Outcome =
    | Quiet
    | NewFeedback(items: seq<FeedbackItem>)
    | BotAllClear(items: seq<FeedbackItem>)
    | Inconclusive(doubt: Doubt)

  datatype Watch = WaitFor(delay: Duration) | Settled(outcome: Outcome)

  function ExitCode(outcome: Outcome): nat {
    match outcome
    case Quiet => 0
    case BotAllClear(_) => 0
    case Inconclusive(_) => 1
    case NewFeedback(_) => 3
  }

  function Ids(items: seq<FeedbackItem>): set<string> {
    set item | item in items :: item.id
  }

  /** The items whose id the ledger does not hold yet, in order. */
  function Fresh(seen: set<string>, items: seq<FeedbackItem>): seq<FeedbackItem> {
    if items == [] then []
    else
      var last, rest := items[|items| - 1], Fresh(seen, items[..|items| - 1]);
      if last.id in seen then rest else rest + [last]
  }

  function Classify(items: seq<FeedbackItem>): Outcome {
    if exists i :: 0 <= i < |items| && items[i].IsActionable() then NewFeedback(items) else BotAllClear(items)
  }

  // ---------------------------------------------------------------------------
  // The state machine
  // ---------------------------------------------------------------------------

  datatype WatchState = WatchState(
    seen: set<string>,
    attempt: nat,
    elapsed: Duration,
    pending: seq<FeedbackItem>,
    consecutiveFailures: nat,
    sawFailure: bool,
    lastError: Option<string>,
    outstanding: nat)

  function Start(seen: set<string>): WatchState {
    WatchState(seen, 0, 0, [], 0, false, None, 0)
  }

  function BackoffStep(policy: WatchPolicy, s: WatchState): (WatchState, Watch) {
    var delay := DelayFor(policy, s.attempt);
    (s.(attempt := s.attempt + 1, elapsed := SaturatingAdd(s.elapsed, delay)), WaitFor(delay))
  }

  function SilentOutcome(s: WatchState): Outcome {
    if s.outstanding > 0 then Inconclusive(StillRunning(s.outstanding))
    else if s.sawFailure then Inconclusive(Unverified(s.lastError))
    else Quiet
  }

  function FailureStep(policy: WatchPolicy, s: WatchState, reason: string): (WatchState, Watch) {
    var s1 := s.(consecutiveFailures := s.consecutiveFailures + 1, sawFailure := true, lastError := Some(reason));
    if s1.consecutiveFailures >= policy.maxFailures then
      (s1, Settled(Inconclusive(GaveUp(s1.consecutiveFailures, reason))))
    else BackoffStep(policy, s1)
  }

  function ObservationStep(
    policy: WatchPolicy, s: WatchState, items: seq<FeedbackItem>, outstanding: nat): (WatchState, Watch)
  {
    var s1 := s.(consecutiveFailures := 0, outstanding := outstanding);
    var news := Fresh(s.seen, items);
    if news != [] then
      (s1.(seen := s.seen + Ids(news), pending := s.pending + news, elapsed := SaturatingAdd(s.elapsed, policy.settle)),
       WaitFor(policy.settle))
    else if s.pending != [] then (s1.(pending := []), Settled(Classify(s.pending)))
    else if s.elapsed >= policy.window then (s1, Settled(SilentOutcome(s1)))
    else BackoffStep(policy, s1)
  }

  function Step(policy: WatchPolicy, s: WatchState, poll: Poll): (WatchState, Watch) {
    match poll
    case Unavailable(reason) => FailureStep(policy, s, reason)
    case Observed(items, outstanding) => ObservationStep(policy, s, items, outstanding)
  }

  class TriageLedger {
    var seen: set<string>

    constructor FromIds(ids: set<string>)
      ensures seen == ids
    {
      seen := ids;
    }

    method Record(id: string) returns (isNew: bool)
      modifies this
      ensures seen == old(seen) + {id}
      ensures isNew == (id !in old(seen))
    {
      isNew := id !in seen;
      seen := seen + {id};
    }
  }

  class FeedbackWatch {
    const policy: WatchPolicy
    const ledger: TriageLedger
    var attempt: nat
    var elapsed: Duration
    var pending: seq<FeedbackItem>
    var consecutiveFailures: nat
    var sawFailure: bool
    var lastError: Option<string>
    var outstanding: nat

    ghost function State(): WatchState
      reads this, ledger
    {
      WatchState(ledger.seen, attempt, elapsed, pending, consecutiveFailures, sawFailure, lastError, outstanding)
    }

    constructor (policy: WatchPolicy, ledger: TriageLedger)
      ensures this.policy == policy && this.ledger == ledger
      ensures State() == Start(ledger.seen)
    {
      this.policy, this.ledger := policy, ledger;
      attempt, elapsed, pending, consecutiveFailures := 0, 0, [], 0;
      sawFailure, lastError, outstanding := false, None, 0;
    }

    method Observe(poll: Poll) returns (w: Watch)
      modifies this, ledger
      ensures (State(), w) == Step(policy, old(State()), poll)
    {
      match poll
      case Unavailable(reason) => w := OnFailure(reason);
      case Observed(items, outstanding) => w := OnObservation(items, outstanding);
    }

    method OnFailure(reason: string) returns (w: Watch)
      modifies this
      ensures (State(), w) == FailureStep(policy, old(State()), reason)
    {
      consecutiveFailures := consecutiveFailures + 1;
      sawFailure := true;
      lastError := Some(reason);
      if consecutiveFailures >= policy.maxFailures {
        return Settled(Inconclusive(GaveUp(consecutiveFailures, reason)));
      }
      w := Backoff();
    }

    method OnObservation(items: seq<FeedbackItem>, outstanding: nat) returns (w: Watch)
      modifies this, ledger
      ensures (State(), w) == ObservationStep(policy, old(State()), items, outstanding)
    {
      consecutiveFailures := 0;
      this.outstanding := outstanding;
      var news := NotSeen(items);
      if news != [] {
        RecordAll(news);
        pending := pending + news;
        elapsed := SaturatingAdd(elapsed, policy.settle);
        return WaitFor(policy.settle);
      }
      if pending != [] {
        var batch := pending;
        pending := [];
        return Settled(Classify(batch));
      }
      if elapsed >= policy.window {
        var outcome := Silence();
        return Settled(outcome);
      }
      w := Backoff();
    }

    method NotSeen(items: seq<FeedbackItem>) returns (news: seq<FeedbackItem>)
      ensures news == Fresh(ledger.seen, items)
    {
      news := [];
      for i := 0 to |items|
        invariant news == Fresh(ledger.seen, items[..i])
      {
        assert items[..i + 1][..i] == items[..i];
        if items[i].id !in ledger.seen {
          news := news + [items[i]];
        }
      }
      assert items[..|items|] == items;
    }

    method RecordAll(news: seq<FeedbackItem>)
      modifies ledger
      ensures ledger.seen == old(ledger.seen) + Ids(news)
    {
      for i := 0 to |news|
        invariant ledger.seen == old(ledger.seen) + Ids(news[..i])
      {
        assert news[..i + 1] == news[..i] + [news[i]];
        var _ := ledger.Record(news[i].id);
      }
      assert news[..|news|] == news;
    }

    method Silence() returns (outcome: Outcome)
      ensures outcome == SilentOutcome(State())
      ensures outcome == Quiet <==> outstanding == 0 && !sawFailure
    {
      if outstanding > 0 {
        return Inconclusive(StillRunning(outstanding));
      }
      if sawFailure {
        return Inconclusive(Unverified(lastError));
      }
      return Quiet;
    }

    method Backoff() returns (w: Watch)
      modifies this
      ensures (State(), w) == BackoffStep(policy, old(State()))
    {
      var delay := DelayFor(policy, attempt);
      attempt := attempt + 1;
      elapsed := SaturatingAdd(elapsed, delay);
      return WaitFor(delay);
    }
  }
}
