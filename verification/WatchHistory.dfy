/**
 * What a watch answers, told from the polls alone: which items were new, how long it waited, how
 * many polls failed in a row. The state machine of Feedback is proved to compute this.
 */
module WatchHistory {
  import opened Wrappers
  import opened Feedback

  // ---------------------------------------------------------------------------
  // Reading a history of polls
  // ---------------------------------------------------------------------------

  function IdsIn(poll: Poll): set<string> {
    if poll.Observed? then Ids(poll.items) else {}
  }

  function IdsOf(polls: seq<Poll>): set<string> {
    if polls == [] then {} else IdsOf(polls[..|polls| - 1]) + IdsIn(polls[|polls| - 1])
  }

  predicate BringsNews(seen: set<string>, earlier: seq<Poll>, poll: Poll) {
    !(IdsIn(poll) <= seen + IdsOf(earlier))
  }

  /** The items each poll is the first to show, poll by poll. */
  function NewsOf(seen: set<string>, polls: seq<Poll>): seq<FeedbackItem> {
    if polls == [] then []
    else
      var earlier, last := polls[..|polls| - 1], polls[|polls| - 1];
      if last.Observed? then NewsOf(seen, earlier) + Fresh(seen + IdsOf(earlier), last.items)
      else NewsOf(seen, earlier)
  }

  function NewsPolls(seen: set<string>, polls: seq<Poll>): (n: nat)
    ensures n <= |polls|
  {
    if polls == [] then 0
    else
      var earlier := polls[..|polls| - 1];
      NewsPolls(seen, earlier) + if BringsNews(seen, earlier, polls[|polls| - 1]) then 1 else 0
  }

  /** Failed polls in a row at the end of a history. */
  function FailureStreak(polls: seq<Poll>): nat {
    if polls == [] || !polls[|polls| - 1].Unavailable? then 0 else FailureStreak(polls[..|polls| - 1]) + 1
  }

  predicate AnyFailed(polls: seq<Poll>) {
    exists i :: 0 <= i < |polls| && polls[i].Unavailable?
  }

  function LastError(polls: seq<Poll>): Option<string> {
    if polls == [] then None
    else if polls[|polls| - 1].Unavailable? then Some(polls[|polls| - 1].reason)
    else LastError(polls[..|polls| - 1])
  }

  function LastOutstanding(polls: seq<Poll>): nat {
    if polls == [] then 0
    else if polls[|polls| - 1].Observed? then polls[|polls| - 1].outstanding
    else LastOutstanding(polls[..|polls| - 1])
  }

  function BackoffSum(policy: WatchPolicy, n: nat): nat {
    if n == 0 then 0 else BackoffSum(policy, n - 1) + DelayFor(policy, n - 1)
  }

  /** Time waited by a watch that has not settled: a settle window per poll with news, backoff otherwise. */
  function Waited(policy: WatchPolicy, seen: set<string>, polls: seq<Poll>): nat {
    if polls == [] then 0
    else
      var earlier := polls[..|polls| - 1];
      Waited(policy, seen, earlier)
      + if BringsNews(seen, earlier, polls[|polls| - 1]) then policy.settle
        else DelayFor(policy, |earlier| - NewsPolls(seen, earlier))
  }

  /** The answer to a poll, as a function of the history before it. */
  function Answer(policy: WatchPolicy, seen: set<string>, earlier: seq<Poll>, poll: Poll): Watch {
    var backoff := WaitFor(DelayFor(policy, |earlier| - NewsPolls(seen, earlier)));
    match poll
    case Unavailable(reason) =>
      var streak := FailureStreak(earlier) + 1;
      if streak >= policy.maxFailures then Settled(Inconclusive(GaveUp(streak, reason))) else backoff
    case Observed(_, outstanding) =>
      if BringsNews(seen, earlier, poll) then WaitFor(policy.settle)
      else if NewsOf(seen, earlier) != [] then Settled(Classify(NewsOf(seen, earlier)))
      else if Waited(policy, seen, earlier) < policy.window then backoff
      else if outstanding > 0 then Settled(Inconclusive(StillRunning(outstanding)))
      else if AnyFailed(earlier) then Settled(Inconclusive(Unverified(LastError(earlier))))
      else Settled(Quiet)
  }

  /** No poll of the history settled the watch. */
  predicate Alive(policy: WatchPolicy, seen: set<string>, polls: seq<Poll>) {
    polls == []
    || (Alive(policy, seen, polls[..|polls| - 1])
        && Answer(policy, seen, polls[..|polls| - 1], polls[|polls| - 1]).WaitFor?)
  }

  /** The last poll of the history, and no earlier one, settled the watch. */
  predicate Settles(policy: WatchPolicy, seen: set<string>, polls: seq<Poll>, outcome: Outcome) {
    && polls != []
    && Alive(policy, seen, polls[..|polls| - 1])
    && Answer(policy, seen, polls[..|polls| - 1], polls[|polls| - 1]) == Settled(outcome)
  }

  function After(policy: WatchPolicy, seen: set<string>, polls: seq<Poll>): WatchState {
    if polls == [] then Start(seen)
    else Step(policy, After(policy, seen, polls[..|polls| - 1]), polls[|polls| - 1]).0
  }

  /** The state a live watch must be in after a history. */
  function StateOf(policy: WatchPolicy, seen: set<string>, polls: seq<Poll>): WatchState {
    WatchState(
      seen + IdsOf(polls),
      |polls| - NewsPolls(seen, polls),
      Min(Waited(policy, seen, polls), MAX_DURATION),
      NewsOf(seen, polls),
      FailureStreak(polls),
      AnyFailed(polls),
      LastError(polls),
      LastOutstanding(polls))
  }

  // ---------------------------------------------------------------------------
  // The machine computes the history's answer
  // ---------------------------------------------------------------------------

  lemma {:induction false} FreshItems(seen: set<string>, items: seq<FeedbackItem>)
    ensures forall item :: item in Fresh(seen, items) <==> item in items && item.id !in seen
    ensures Fresh(seen, items) == [] <==> Ids(items) <= seen
    ensures seen + Ids(Fresh(seen, items)) == seen + Ids(items)
  {
    if items != [] {
      FreshItems(seen, items[..|items| - 1]);
      assert items == items[..|items| - 1] + [items[|items| - 1]];
    }
    if Fresh(seen, items) == [] {
      forall item | item in items
        ensures item.id in seen
      {
        assert item !in Fresh(seen, items);
      }
    } else {
      var item := Fresh(seen, items)[0];
      assert item in Fresh(seen, items);
    }
  }

  /** A poll's new items keep their order, and each is judged alone. */
  lemma {:induction false} FreshConcat(seen: set<string>, a: seq<FeedbackItem>, b: seq<FeedbackItem>)
    ensures Fresh(seen, a + b) == Fresh(seen, a) + Fresh(seen, b)
  {
    if b == [] {
      assert a + b == a;
    } else {
      assert (a + b)[..|a + b| - 1] == a + b[..|b| - 1];
      FreshConcat(seen, a, b[..|b| - 1]);
    }
  }

  lemma FreshOne(seen: set<string>, item: FeedbackItem)
    ensures Fresh(seen, [item]) == if item.id in seen then [] else [item]
  {
    assert [item][..0] == [];
  }

  /** The ids a history has shown, read off its items. */
  lemma {:induction false} IdsOfIff(polls: seq<Poll>, id: string)
    ensures id in IdsOf(polls)
            <==> exists i :: 0 <= i < |polls| && Shows(polls[i], id)
  {
    if polls != [] {
      var n := |polls| - 1;
      IdsOfIff(polls[..n], id);
      assert forall i :: 0 <= i < n ==> polls[..n][i] == polls[i];
      assert id in IdsIn(polls[n]) <==> Shows(polls[n], id);
    }
  }

  predicate Shows(poll: Poll, id: string) {
    poll.Observed? && exists item :: item in poll.items && item.id == id
  }

  lemma {:induction false} IdsOfConcat(a: seq<Poll>, b: seq<Poll>)
    ensures IdsOf(a + b) == IdsOf(a) + IdsOf(b)
  {
    if b == [] {
      assert a + b == a;
    } else {
      assert (a + b)[..|a + b| - 1] == a + b[..|b| - 1];
      IdsOfConcat(a, b[..|b| - 1]);
    }
  }

  /** What is new in a longer history is what was new before and what is new to the ledger by then, in this order. */
  lemma {:induction false} NewsConcat(seen: set<string>, a: seq<Poll>, b: seq<Poll>)
    ensures NewsOf(seen, a + b) == NewsOf(seen, a) + NewsOf(seen + IdsOf(a), b)
  {
    if b == [] {
      assert a + b == a;
    } else {
      var rest, last := b[..|b| - 1], b[|b| - 1];
      assert a + b == (a + rest) + [last] && b == rest + [last];
      NewsConcat(seen, a, rest);
      NewsConcatStep(seen, a, rest, last);
    }
  }

  lemma NewsOfSnoc(seen: set<string>, earlier: seq<Poll>, poll: Poll)
    ensures NewsOf(seen, earlier + [poll]) == NewsOf(seen, earlier) + FreshIn(seen + IdsOf(earlier), poll)
  {
    NewsSnoc(seen, earlier, poll);
    assert poll.Unavailable? ==> NewsOf(seen, earlier) + [] == NewsOf(seen, earlier);
  }

  function FreshIn(seen: set<string>, poll: Poll): seq<FeedbackItem> {
    if poll.Observed? then Fresh(seen, poll.items) else []
  }

  lemma NewsConcatStep(seen: set<string>, a: seq<Poll>, rest: seq<Poll>, last: Poll)
    requires NewsOf(seen, a + rest) == NewsOf(seen, a) + NewsOf(seen + IdsOf(a), rest)
    ensures NewsOf(seen, (a + rest) + [last]) == NewsOf(seen, a) + NewsOf(seen + IdsOf(a), rest + [last])
  {
    NewsOfSnoc(seen, a + rest, last);
    NewsOfSnoc(seen + IdsOf(a), rest, last);
    IdsOfConcat(a, rest);
    Regroup(NewsOf(seen, a), NewsOf(seen + IdsOf(a), rest), FreshIn(seen + IdsOf(a + rest), last));
    assert seen + IdsOf(a + rest) == (seen + IdsOf(a)) + IdsOf(rest);
  }

  lemma Regroup<T>(a: seq<T>, b: seq<T>, c: seq<T>)
    ensures (a + b) + c == a + (b + c)
  {
  }

  lemma NewsOfOne(seen: set<string>, poll: Poll)
    ensures NewsOf(seen, [poll]) == if poll.Observed? then Fresh(seen, poll.items) else []
  {
    assert [poll] == [] + [poll];
    NewsSnoc(seen, [], poll);
    assert seen + IdsOf([]) == seen;
  }

  /** The last error is the reason of the last failed poll, whatever was observed after it. */
  lemma {:induction false} LastErrorIff(polls: seq<Poll>, reason: string)
    ensures LastError(polls) == Some(reason)
            <==> exists i :: 0 <= i < |polls| && polls[i] == Unavailable(reason) && AllObserved(polls[i + 1..])
  {
    if polls != [] {
      var earlier, last := polls[..|polls| - 1], polls[|polls| - 1];
      LastErrorIff(earlier, reason);
      forall i | 0 <= i < |earlier|
        ensures polls[i] == earlier[i]
        ensures AllObserved(polls[i + 1..]) <==> AllObserved(earlier[i + 1..]) && last.Observed?
      {
        assert polls[i + 1..] == earlier[i + 1..] + [last];
        AllObservedSnoc(earlier[i + 1..], last);
      }
      assert polls[|polls|..] == [];
    }
  }

  predicate AllObserved(polls: seq<Poll>) {
    forall i :: 0 <= i < |polls| ==> polls[i].Observed?
  }

  lemma AllObservedSnoc(polls: seq<Poll>, last: Poll)
    ensures AllObserved(polls + [last]) <==> AllObserved(polls) && last.Observed?
  {
    assert (polls + [last])[|polls|] == last && forall i :: 0 <= i < |polls| ==> (polls + [last])[i] == polls[i];
  }

  lemma {:induction false} NewsIds(seen: set<string>, polls: seq<Poll>)
    ensures Ids(NewsOf(seen, polls)) == IdsOf(polls) - seen
  {
    if polls != [] {
      var earlier, last := polls[..|polls| - 1], polls[|polls| - 1];
      NewsIds(seen, earlier);
      if last.Observed? {
        var news := Fresh(seen + IdsOf(earlier), last.items);
        FreshItems(seen + IdsOf(earlier), last.items);
        IdsConcat(NewsOf(seen, earlier), news);
      }
    }
  }

  lemma IdsConcat(a: seq<FeedbackItem>, b: seq<FeedbackItem>)
    ensures Ids(a + b) == Ids(a) + Ids(b)
  {
    forall id
      ensures id in Ids(a + b) <==> id in Ids(a) + Ids(b)
    {
      if id in Ids(a) {
        var item :| item in a && item.id == id;
        assert item in a + b;
      }
      if id in Ids(b) {
        var item :| item in b && item.id == id;
        assert item in a + b;
      }
    }
  }

  lemma NoNewsIff(seen: set<string>, polls: seq<Poll>)
    ensures NewsOf(seen, polls) == [] <==> IdsOf(polls) <= seen
  {
    NewsIds(seen, polls);
    if NewsOf(seen, polls) != [] {
      assert NewsOf(seen, polls)[0].id in Ids(NewsOf(seen, polls));
    } else {
      forall id | id in IdsOf(polls)
        ensures id in seen
      {
        assert id !in IdsOf(polls) - seen;
      }
    }
  }

  lemma AnyFailedSnoc(polls: seq<Poll>, poll: Poll)
    ensures AnyFailed(polls + [poll]) <==> AnyFailed(polls) || poll.Unavailable?
  {
    if AnyFailed(polls) {
      var i :| 0 <= i < |polls| && polls[i].Unavailable?;
      assert (polls + [poll])[i].Unavailable?;
    }
    if poll.Unavailable? {
      assert (polls + [poll])[|polls|].Unavailable?;
    }
  }

  lemma NewsSnoc(seen: set<string>, earlier: seq<Poll>, poll: Poll)
    ensures IdsOf(earlier + [poll]) == IdsOf(earlier) + IdsIn(poll)
    ensures NewsOf(seen, earlier + [poll])
            == if poll.Observed? then NewsOf(seen, earlier) + Fresh(seen + IdsOf(earlier), poll.items)
               else NewsOf(seen, earlier)
    ensures NewsPolls(seen, earlier + [poll])
            == NewsPolls(seen, earlier) + if BringsNews(seen, earlier, poll) then 1 else 0
  {
    assert (earlier + [poll])[..|earlier + [poll]| - 1] == earlier;
  }

  lemma WaitedSnoc(policy: WatchPolicy, seen: set<string>, earlier: seq<Poll>, poll: Poll)
    ensures Waited(policy, seen, earlier + [poll])
            == Waited(policy, seen, earlier)
               + if BringsNews(seen, earlier, poll) then policy.settle
                 else DelayFor(policy, |earlier| - NewsPolls(seen, earlier))
  {
    assert (earlier + [poll])[..|earlier + [poll]| - 1] == earlier;
  }

  lemma FailuresSnoc(earlier: seq<Poll>, poll: Poll)
    ensures FailureStreak(earlier + [poll]) == if poll.Unavailable? then FailureStreak(earlier) + 1 else 0
    ensures AnyFailed(earlier + [poll]) <==> AnyFailed(earlier) || poll.Unavailable?
    ensures LastError(earlier + [poll]) == if poll.Unavailable? then Some(poll.reason) else LastError(earlier)
    ensures LastOutstanding(earlier + [poll]) == if poll.Observed? then poll.outstanding else LastOutstanding(earlier)
  {
    assert (earlier + [poll])[..|earlier + [poll]| - 1] == earlier;
    AnyFailedSnoc(earlier, poll);
  }

  lemma AliveSnoc(policy: WatchPolicy, seen: set<string>, earlier: seq<Poll>, poll: Poll)
    requires Alive(policy, seen, earlier)
    ensures var w := Answer(policy, seen, earlier, poll);
            && (Alive(policy, seen, earlier + [poll]) <==> w.WaitFor?)
            && (w.Settled? ==> Settles(policy, seen, earlier + [poll], w.outcome))
  {
    assert (earlier + [poll])[..|earlier + [poll]| - 1] == earlier;
  }

  /** The state after one poll more, field by field. */
  lemma StateSnoc(policy: WatchPolicy, seen: set<string>, earlier: seq<Poll>, poll: Poll)
    ensures var s0, s1 := StateOf(policy, seen, earlier), StateOf(policy, seen, earlier + [poll]);
            var news := BringsNews(seen, earlier, poll);
            && s1.seen == s0.seen + IdsIn(poll)
            && s1.attempt == s0.attempt + (if news then 0 else 1)
            && s1.elapsed == SaturatingAdd(s0.elapsed, if news then policy.settle else DelayFor(policy, s0.attempt))
            && s1.pending == (if poll.Observed? then s0.pending + Fresh(s0.seen, poll.items) else s0.pending)
            && s1.consecutiveFailures == (if poll.Unavailable? then s0.consecutiveFailures + 1 else 0)
            && s1.sawFailure == (s0.sawFailure || poll.Unavailable?)
            && s1.lastError == (if poll.Unavailable? then Some(poll.reason) else s0.lastError)
            && s1.outstanding == (if poll.Observed? then poll.outstanding else s0.outstanding)
  {
    NewsSnoc(seen, earlier, poll);
    WaitedSnoc(policy, seen, earlier, poll);
    FailuresSnoc(earlier, poll);
  }

  /** A failed poll: the machine's next state and its answer are the history's. */
  lemma FailureFollowsHistory(policy: WatchPolicy, seen: set<string>, earlier: seq<Poll>, reason: string)
    ensures FailureStep(policy, StateOf(policy, seen, earlier), reason).1
            == Answer(policy, seen, earlier, Unavailable(reason))
    ensures FailureStep(policy, StateOf(policy, seen, earlier), reason).1.WaitFor?
            ==> FailureStep(policy, StateOf(policy, seen, earlier), reason).0
                == StateOf(policy, seen, earlier + [Unavailable(reason)])
  {
    StateSnoc(policy, seen, earlier, Unavailable(reason));
  }

  lemma NewsIsFresh(
    policy: WatchPolicy, seen: set<string>, earlier: seq<Poll>, items: seq<FeedbackItem>, outstanding: nat)
    ensures var s := StateOf(policy, seen, earlier);
            && (BringsNews(seen, earlier, Observed(items, outstanding)) <==> Fresh(s.seen, items) != [])
            && s.seen + Ids(Fresh(s.seen, items)) == s.seen + Ids(items)
  {
    FreshItems(seen + IdsOf(earlier), items);
  }

  lemma ObservationAnswer(
    policy: WatchPolicy, seen: set<string>, earlier: seq<Poll>, items: seq<FeedbackItem>, outstanding: nat)
    ensures ObservationStep(policy, StateOf(policy, seen, earlier), items, outstanding).1
            == Answer(policy, seen, earlier, Observed(items, outstanding))
  {
    NewsIsFresh(policy, seen, earlier, items, outstanding);
    assert StateOf(policy, seen, earlier).elapsed >= policy.window <==> Waited(policy, seen, earlier) >= policy.window;
  }

  lemma ObservationState(
    policy: WatchPolicy, seen: set<string>, earlier: seq<Poll>, items: seq<FeedbackItem>, outstanding: nat)
    requires ObservationStep(policy, StateOf(policy, seen, earlier), items, outstanding).1.WaitFor?
    ensures ObservationStep(policy, StateOf(policy, seen, earlier), items, outstanding).0
            == StateOf(policy, seen, earlier + [Observed(items, outstanding)])
  {
    var s := StateOf(policy, seen, earlier);
    NewsIsFresh(policy, seen, earlier, items, outstanding);
    StateSnoc(policy, seen, earlier, Observed(items, outstanding));
    assert s.pending + [] == s.pending;
  }

  /** An observation: likewise. */
  lemma ObservationFollowsHistory(
    policy: WatchPolicy, seen: set<string>, earlier: seq<Poll>, items: seq<FeedbackItem>, outstanding: nat)
    ensures ObservationStep(policy, StateOf(policy, seen, earlier), items, outstanding).1
            == Answer(policy, seen, earlier, Observed(items, outstanding))
    ensures ObservationStep(policy, StateOf(policy, seen, earlier), items, outstanding).1.WaitFor?
            ==> ObservationStep(policy, StateOf(policy, seen, earlier), items, outstanding).0
                == StateOf(policy, seen, earlier + [Observed(items, outstanding)])
  {
    ObservationAnswer(policy, seen, earlier, items, outstanding);
    if ObservationStep(policy, StateOf(policy, seen, earlier), items, outstanding).1.WaitFor? {
      ObservationState(policy, seen, earlier, items, outstanding);
    }
  }

  lemma StepFollowsHistory(policy: WatchPolicy, seen: set<string>, earlier: seq<Poll>, poll: Poll)
    ensures Step(policy, StateOf(policy, seen, earlier), poll).1 == Answer(policy, seen, earlier, poll)
    ensures Step(policy, StateOf(policy, seen, earlier), poll).1.WaitFor?
            ==> Step(policy, StateOf(policy, seen, earlier), poll).0 == StateOf(policy, seen, earlier + [poll])
  {
    match poll
    case Unavailable(reason) => FailureFollowsHistory(policy, seen, earlier, reason);
    case Observed(items, outstanding) => ObservationFollowsHistory(policy, seen, earlier, items, outstanding);
  }

  lemma AnswerIsStep(policy: WatchPolicy, seen: set<string>, earlier: seq<Poll>, poll: Poll, s: WatchState)
    requires s == StateOf(policy, seen, earlier)
    requires Answer(policy, seen, earlier, poll).WaitFor?
    ensures Step(policy, s, poll).0 == StateOf(policy, seen, earlier + [poll])
  {
    StepFollowsHistory(policy, seen, earlier, poll);
  }

  /** A watch that has not settled is in the state its history dictates. */
  lemma {:induction false} MachineFollowsHistory(policy: WatchPolicy, seen: set<string>, polls: seq<Poll>)
    requires Alive(policy, seen, polls)
    ensures After(policy, seen, polls) == StateOf(policy, seen, polls)
  {
    if polls != [] {
      var earlier, last := polls[..|polls| - 1], polls[|polls| - 1];
      assert polls == earlier + [last];
      MachineFollowsHistory(policy, seen, earlier);
      AnswerIsStep(policy, seen, earlier, last, After(policy, seen, earlier));
    }
  }

  // ---------------------------------------------------------------------------
  // Time
  // ---------------------------------------------------------------------------

  function DelaysHandedOut(policy: WatchPolicy, seen: set<string>, polls: seq<Poll>): seq<Duration>
    requires Alive(policy, seen, polls)
  {
    if polls == [] then []
    else
      var earlier := polls[..|polls| - 1];
      DelaysHandedOut(policy, seen, earlier) + [Answer(policy, seen, earlier, polls[|polls| - 1]).delay]
  }

  function Sum(delays: seq<Duration>): nat {
    if delays == [] then 0 else Sum(delays[..|delays| - 1]) + delays[|delays| - 1]
  }

  /** The elapsed time of a live watch is the sum of the delays it handed out, up to saturation. */
  lemma {:induction false} ElapsedIsSumOfDelays(policy: WatchPolicy, seen: set<string>, polls: seq<Poll>)
    requires Alive(policy, seen, polls)
    ensures Sum(DelaysHandedOut(policy, seen, polls)) == Waited(policy, seen, polls)
    ensures After(policy, seen, polls).elapsed == Min(Sum(DelaysHandedOut(policy, seen, polls)), MAX_DURATION)
  {
    MachineFollowsHistory(policy, seen, polls);
    if polls != [] {
      var earlier, last := polls[..|polls| - 1], polls[|polls| - 1];
      ElapsedIsSumOfDelays(policy, seen, earlier);
      var before := DelaysHandedOut(policy, seen, earlier);
      var delay := Answer(policy, seen, earlier, last).delay;
      assert (before + [delay])[..|before|] == before;
    }
  }

  /** Counted the other way round: one settle window per poll with news, and the backoff schedule for the rest. */
  lemma {:induction false} WaitedByKind(policy: WatchPolicy, seen: set<string>, polls: seq<Poll>)
    ensures var news := NewsPolls(seen, polls);
            Waited(policy, seen, polls) == Repeated(policy.settle, news) + BackoffSum(policy, |polls| - news)
  {
    if polls != [] {
      var earlier := polls[..|polls| - 1];
      WaitedByKind(policy, seen, earlier);
    }
  }

  lemma {:induction false} DoubledMonotone(d: nat, i: nat, j: nat)
    requires i <= j
    ensures d <= Doubled(d, i) <= Doubled(d, j)
  {
    if j > 0 {
      DoubledMonotone(d, if i < j then i else i - 1, j - 1);
    }
  }

  /** Delays never shrink, and never fall below the smaller configured delay. */
  lemma DelaysNeverShrink(policy: WatchPolicy, i: nat, j: nat)
    requires i <= j
    ensures Min(policy.firstDelay, policy.maxDelay) <= DelayFor(policy, i) <= DelayFor(policy, j)
  {
    DoubledMonotone(policy.firstDelay, Min(i, 16), Min(j, 16));
  }

  /** The attempt from which the delay is constant: the cap is reached, or the exponent is. */
  predicate CapReached(policy: WatchPolicy, c: nat) {
    c >= 16 || Doubled(policy.firstDelay, c) >= policy.maxDelay
  }

  function CapIndex(policy: WatchPolicy, from: nat): (c: nat)
    requires from <= 16
    ensures from <= c <= 16 && CapReached(policy, c)
    ensures forall i :: from <= i < c ==> !CapReached(policy, i)
    decreases 16 - from
  {
    if CapReached(policy, from) then from else CapIndex(policy, from + 1)
  }

  function Pow2(n: nat): nat {
    if n == 0 then 1 else 2 * Pow2(n - 1)
  }

  /** `d + 2d + 4d + ...`, `n` terms. */
  function Geometric(d: nat, n: nat): nat {
    if n == 0 then 0 else Geometric(d, n - 1) + Doubled(d, n - 1)
  }

  /** `d + d + ...`, `n` terms. */
  function Repeated(d: nat, n: nat): nat {
    if n == 0 then 0 else Repeated(d, n - 1) + d
  }

  lemma {:induction false} DoubledIsPower(d: nat, n: nat)
    ensures Doubled(d, n) == d * Pow2(n)
  {
    if n > 0 {
      DoubledIsPower(d, n - 1);
    }
  }

  /** Every delay is the first one doubled once per attempt, at most sixteen times, or the maximum if that is less. */
  lemma DelayIs(policy: WatchPolicy, i: nat)
    ensures var doubled := policy.firstDelay * Pow2(if i < 16 then i else 16);
            && DelayFor(policy, i) <= policy.maxDelay && DelayFor(policy, i) <= doubled
            && (DelayFor(policy, i) == policy.maxDelay || DelayFor(policy, i) == doubled)
  {
    DoubledIsPower(policy.firstDelay, if i < 16 then i else 16);
  }

  lemma {:induction false} GeometricIsPower(d: nat, n: nat)
    ensures Geometric(d, n) == Doubled(d, n) - d
  {
    if n > 0 {
      GeometricIsPower(d, n - 1);
    }
  }

  lemma {:induction false} RepeatedIsProduct(d: nat, n: nat)
    ensures Repeated(d, n) == d * n
  {
    if n > 0 {
      RepeatedIsProduct(d, n - 1);
      ScaleStep(d, n - 1);
    }
  }

  lemma ScaleStep(d: nat, n: nat)
    ensures d * (n + 1) == d * n + d
  {
  }

  lemma {:induction false} BackoffBelowCap(policy: WatchPolicy, n: nat)
    requires forall i :: 0 <= i < n ==> !CapReached(policy, i)
    ensures BackoffSum(policy, n) == Geometric(policy.firstDelay, n)
  {
    if n > 0 {
      BackoffBelowCap(policy, n - 1);
      DelayBelowCap(policy, n - 1);
    }
  }

  lemma {:induction false} BackoffPastCap(policy: WatchPolicy, c: nat, n: nat)
    requires c <= 16 && CapReached(policy, c)
    ensures BackoffSum(policy, c + n) == BackoffSum(policy, c) + Repeated(DelayFor(policy, c), n)
  {
    if n > 0 {
      BackoffPastCap(policy, c, n - 1);
      ConstantPastCap(policy, c, c + n - 1);
    }
  }

  lemma DelayBelowCap(policy: WatchPolicy, i: nat)
    requires !CapReached(policy, i)
    ensures DelayFor(policy, i) == Doubled(policy.firstDelay, i)
  {
  }

  lemma ConstantPastCap(policy: WatchPolicy, c: nat, i: nat)
    requires CapReached(policy, c) && c <= i && c <= 16
    ensures DelayFor(policy, i) == DelayFor(policy, c)
  {
    if c < 16 {
      DoubledMonotone(policy.firstDelay, c, Min(i, 16));
    }
  }

  /** What every delay from `c` on is: the first one times `2^c`, cut off at the maximum. */
  function SlopeAt(policy: WatchPolicy, c: nat): nat {
    if policy.firstDelay * Pow2(c) < policy.maxDelay then policy.firstDelay * Pow2(c) else policy.maxDelay
  }

  /** At and past the cap the delay is the slope. */
  lemma DelayPastCap(policy: WatchPolicy, c: nat, i: nat)
    requires c <= 16 && CapReached(policy, c) && c <= i
    ensures DelayFor(policy, i) == SlopeAt(policy, c)
  {
    ConstantPastCap(policy, c, i);
    DelayIs(policy, c);
  }

  /** The waits add up geometrically until the cap and linearly from there on. */
  lemma BackoffClosedForm(policy: WatchPolicy, n: nat)
    ensures var c := CapIndex(policy, 0);
            BackoffSum(policy, n)
            == if n <= c then policy.firstDelay * Pow2(n) - policy.firstDelay
               else policy.firstDelay * Pow2(c) - policy.firstDelay + SlopeAt(policy, c) * (n - c)
  {
    var c := CapIndex(policy, 0);
    if n <= c {
      BackoffUpToCap(policy, n);
    } else {
      BackoffOnceCapped(policy, c, n - c);
    }
  }

  lemma BackoffOnceCapped(policy: WatchPolicy, c: nat, k: nat)
    requires c <= 16 && CapReached(policy, c)
    requires forall i :: 0 <= i < c ==> !CapReached(policy, i)
    ensures BackoffSum(policy, c + k)
            == policy.firstDelay * Pow2(c) - policy.firstDelay + SlopeAt(policy, c) * k
  {
    BackoffUpToCap(policy, c);
    DelayPastCap(policy, c, c);
    LinearPastCap(policy, c, k);
  }

  /** The cap is where doubling reaches the maximum, or the sixteenth attempt. */
  lemma CapIndexIs(policy: WatchPolicy)
    ensures var c := CapIndex(policy, 0);
            && (c == 16 || policy.firstDelay * Pow2(c) >= policy.maxDelay)
            && (forall i :: 0 <= i < c ==> policy.firstDelay * Pow2(i) < policy.maxDelay)
  {
    var c := CapIndex(policy, 0);
    CapReachedIff(policy, c);
    forall i | 0 <= i < c
      ensures policy.firstDelay * Pow2(i) < policy.maxDelay
    {
      CapReachedIff(policy, i);
    }
  }

  lemma CapReachedIff(policy: WatchPolicy, i: nat)
    ensures CapReached(policy, i) <==> i >= 16 || policy.firstDelay * Pow2(i) >= policy.maxDelay
  {
    DoubledIsPower(policy.firstDelay, i);
  }

  lemma LinearPastCap(policy: WatchPolicy, c: nat, k: nat)
    requires c <= 16 && CapReached(policy, c)
    ensures BackoffSum(policy, c + k) == BackoffSum(policy, c) + DelayFor(policy, c) * k
  {
    BackoffPastCap(policy, c, k);
    RepeatedIsProduct(DelayFor(policy, c), k);
  }

  lemma BackoffUpToCap(policy: WatchPolicy, n: nat)
    requires forall i :: 0 <= i < n ==> !CapReached(policy, i)
    ensures BackoffSum(policy, n) == policy.firstDelay * Pow2(n) - policy.firstDelay
  {
    BackoffBelowCap(policy, n);
    GeometricIsPower(policy.firstDelay, n);
    DoubledIsPower(policy.firstDelay, n);
  }

  lemma {:induction false} BackoffAtLeast(policy: WatchPolicy, n: nat)
    ensures Repeated(Min(policy.firstDelay, policy.maxDelay), n) <= BackoffSum(policy, n)
  {
    if n > 0 {
      BackoffAtLeast(policy, n - 1);
      DelaysNeverShrink(policy, n - 1, n - 1);
    }
  }

  // ---------------------------------------------------------------------------
  // Every watch settles
  // ---------------------------------------------------------------------------

  /** How many waits of at least `d` it takes to cover `a`. */
  function CeilDiv(a: nat, d: nat): nat
    requires d > 0
  {
    if a == 0 then 0 else if a <= d then 1 else 1 + CeilDiv(a - d, d)
  }

  lemma {:induction false} CeilDivIsCeiling(a: nat, d: nat)
    requires d > 0
    ensures d * CeilDiv(a, d) >= a
    ensures a > 0 ==> d * (CeilDiv(a, d) - 1) < a
  {
    if a > d {
      CeilDivIsCeiling(a - d, d);
      ScaleStep(d, CeilDiv(a - d, d));
      ScaleStep(d, CeilDiv(a - d, d) - 1);
    } else if a > 0 {
      assert d * 1 == d && d * 0 == 0;
    }
  }

  /** Polls a single failure streak can occupy without ending the watch. */
  function Tolerated(policy: WatchPolicy): nat {
    if policy.maxFailures == 0 then 0 else policy.maxFailures - 1
  }

  /** Polls with news, each followed by a tolerated streak of failures. */
  function NewsCost(tolerated: nat, news: nat): nat {
    if news == 0 then 0 else NewsCost(tolerated, news - 1) + 1 + tolerated
  }

  lemma {:induction false} NewsCostIsProduct(tolerated: nat, news: nat)
    ensures NewsCost(tolerated, news) == news + tolerated * news
  {
    if news > 0 {
      NewsCostIsProduct(tolerated, news - 1);
      ScaleStep(tolerated, news - 1);
    }
  }

  /** Waiting makes progress, or there is nothing to wait for. */
  predicate MakesProgress(policy: WatchPolicy) {
    Min(policy.firstDelay, policy.maxDelay) > 0 || policy.window == 0
  }

  /** Silent polls it takes to cover the window. */
  function WindowPolls(policy: WatchPolicy): nat
    requires MakesProgress(policy)
  {
    if policy.window == 0 then 0 else CeilDiv(policy.window, Min(policy.firstDelay, policy.maxDelay))
  }

  lemma FailureAnswer(policy: WatchPolicy, seen: set<string>, earlier: seq<Poll>, reason: string)
    ensures var n, w := FailureStreak(earlier), Answer(policy, seen, earlier, Unavailable(reason));
            && (n < Tolerated(policy) ==> w.WaitFor?)
            && (n >= Tolerated(policy) ==> w == Settled(Inconclusive(GaveUp(n + 1, reason))))
  {
  }

  /** The first `k` delays cover the window. */
  predicate Covers(policy: WatchPolicy, k: nat) {
    BackoffSum(policy, k) >= policy.window
  }

  lemma WindowPollsCover(policy: WatchPolicy)
    requires MakesProgress(policy)
    ensures Covers(policy, WindowPolls(policy))
  {
    var d, k := Min(policy.firstDelay, policy.maxDelay), WindowPolls(policy);
    if policy.window > 0 {
      CeilDivIsCeiling(policy.window, d);
      RepeatedIsProduct(d, k);
      BackoffAtLeast(policy, k);
    }
  }

  predicate ShortEnough(policy: WatchPolicy, k: nat, seen: set<string>, polls: seq<Poll>) {
    && |polls| <= k + NewsCost(Tolerated(policy), NewsPolls(seen, polls)) + FailureStreak(polls)
    && FailureStreak(polls) <= Tolerated(policy)
  }

  lemma LiveThroughFailure(policy: WatchPolicy, k: nat, seen: set<string>, earlier: seq<Poll>, reason: string)
    requires ShortEnough(policy, k, seen, earlier)
    requires Answer(policy, seen, earlier, Unavailable(reason)).WaitFor?
    ensures ShortEnough(policy, k, seen, earlier + [Unavailable(reason)])
  {
    NewsSnoc(seen, earlier, Unavailable(reason));
    FailuresSnoc(earlier, Unavailable(reason));
    FailureAnswer(policy, seen, earlier, reason);
  }

  lemma LiveThroughNews(policy: WatchPolicy, k: nat, seen: set<string>, earlier: seq<Poll>, poll: Poll)
    requires ShortEnough(policy, k, seen, earlier)
    requires poll.Observed? && BringsNews(seen, earlier, poll)
    ensures ShortEnough(policy, k, seen, earlier + [poll])
  {
    NewsSnoc(seen, earlier, poll);
    FailuresSnoc(earlier, poll);
  }

  lemma LiveThroughSilence(policy: WatchPolicy, k: nat, seen: set<string>, earlier: seq<Poll>, poll: Poll)
    requires Covers(policy, k)
    requires poll.Observed? && !BringsNews(seen, earlier, poll) && Answer(policy, seen, earlier, poll).WaitFor?
    ensures ShortEnough(policy, k, seen, earlier + [poll])
  {
    FailuresSnoc(earlier, poll);
    SilentMeansEarly(policy, k, seen, earlier);
  }

  /** A failed poll lengthens the streak, news pays for itself and the streak before it, silence comes early. */
  lemma LiveStep(policy: WatchPolicy, k: nat, seen: set<string>, earlier: seq<Poll>, poll: Poll)
    requires Covers(policy, k) && ShortEnough(policy, k, seen, earlier)
    requires Answer(policy, seen, earlier, poll).WaitFor?
    ensures ShortEnough(policy, k, seen, earlier + [poll])
  {
    if poll.Unavailable? {
      LiveThroughFailure(policy, k, seen, earlier, poll.reason);
    } else if BringsNews(seen, earlier, poll) {
      LiveThroughNews(policy, k, seen, earlier, poll);
    } else {
      LiveThroughSilence(policy, k, seen, earlier, poll);
    }
  }

  lemma {:induction false} LiveWatchLength(policy: WatchPolicy, k: nat, seen: set<string>, polls: seq<Poll>)
    requires Covers(policy, k)
    requires Alive(policy, seen, polls)
    ensures ShortEnough(policy, k, seen, polls)
  {
    if polls != [] {
      var earlier, last := polls[..|polls| - 1], polls[|polls| - 1];
      assert polls == earlier + [last];
      LiveWatchLength(policy, k, seen, earlier);
      LiveStep(policy, k, seen, earlier, last);
    }
  }

  /** A silent poll that does not settle comes before any news and inside the window. */
  lemma SilentMeansEarly(policy: WatchPolicy, k: nat, seen: set<string>, earlier: seq<Poll>)
    requires Covers(policy, k)
    requires NewsOf(seen, earlier) == [] && Waited(policy, seen, earlier) < policy.window
    ensures |earlier| < k
  {
    NoNewsIff(seen, earlier);
    NoNewsNoPolls(seen, earlier);
    assert IdsOf(earlier) - seen == {};
    WaitedByKind(policy, seen, earlier);
    if k <= |earlier| {
      BackoffSumMonotone(policy, k, |earlier|);
    }
  }

  lemma {:induction false} NoNewsNoPolls(seen: set<string>, polls: seq<Poll>)
    ensures NewsPolls(seen, polls) <= |IdsOf(polls) - seen|
  {
    if polls != [] {
      var earlier, last := polls[..|polls| - 1], polls[|polls| - 1];
      NoNewsNoPolls(seen, earlier);
      var before, now := IdsOf(earlier) - seen, IdsOf(polls) - seen;
      assert before <= now;
      if BringsNews(seen, earlier, last) {
        var id :| id in IdsIn(last) && id !in seen + IdsOf(earlier);
        assert before + {id} <= now;
        SubsetSize(before + {id}, now);
      } else {
        SubsetSize(before, now);
      }
    }
  }

  lemma {:induction false} SubsetSize<T>(a: set<T>, b: set<T>)
    requires a <= b
    ensures |a| <= |b|
  {
    if x :| x in a {
      SubsetSize(a - {x}, b - {x});
    }
  }

  /** The polls a watch with `f` new ids makes at most, when `k` delays cover the window. */
  function LongestWatch(policy: WatchPolicy, k: nat, f: nat): nat {
    k + NewsCost(Tolerated(policy), f) + Tolerated(policy) + 1
  }

  /** Polls after which a watch that ever sees at most `f` new ids must have settled. */
  function SettleBound(policy: WatchPolicy, f: nat): nat
    requires MakesProgress(policy)
  {
    LongestWatch(policy, WindowPolls(policy), f)
  }

  lemma SettleBoundClosedForm(policy: WatchPolicy, f: nat)
    requires MakesProgress(policy)
    ensures SettleBound(policy, f) == WindowPolls(policy) + f + Tolerated(policy) * (f + 1) + 1
    ensures var d, k := Min(policy.firstDelay, policy.maxDelay), WindowPolls(policy);
            d * k >= policy.window && (k > 0 ==> d * (k - 1) < policy.window)
  {
    NewsCostIsProduct(Tolerated(policy), f);
    ScaleStep(Tolerated(policy), f);
    if policy.window > 0 {
      CeilDivIsCeiling(policy.window, Min(policy.firstDelay, policy.maxDelay));
    }
  }

  lemma {:induction false} NewsCostMonotone(tolerated: nat, a: nat, b: nat)
    requires a <= b
    ensures NewsCost(tolerated, a) <= NewsCost(tolerated, b)
  {
    if a < b {
      NewsCostMonotone(tolerated, a, b - 1);
    }
  }

  /** With `k` delays covering the window, a live watch is shorter than this for the new ids it has seen. */
  lemma LiveWatchIsShorter(policy: WatchPolicy, k: nat, seen: set<string>, polls: seq<Poll>)
    requires Covers(policy, k)
    requires Alive(policy, seen, polls)
    ensures |polls| <= k + NewsCost(Tolerated(policy), |IdsOf(polls) - seen|) + Tolerated(policy)
  {
    LiveWatchLength(policy, k, seen, polls);
    NoNewsNoPolls(seen, polls);
    NewsCostMonotone(Tolerated(policy), NewsPolls(seen, polls), |IdsOf(polls) - seen|);
  }

  /** A live watch is shorter than the bound for the new ids it has seen. */
  lemma LiveWatchIsShort(policy: WatchPolicy, seen: set<string>, polls: seq<Poll>)
    requires MakesProgress(policy)
    requires Alive(policy, seen, polls)
    ensures |polls| < SettleBound(policy, |IdsOf(polls) - seen|)
  {
    WindowPollsCover(policy);
    LiveWatchIsShorter(policy, WindowPolls(policy), seen, polls);
  }

  function Prefix(stream: nat -> Poll, n: nat): seq<Poll> {
    seq(n, i requires 0 <= i => stream(i))
  }

  /** The reader never shows an id outside `all`. */
  ghost predicate ShowsOnly(stream: nat -> Poll, all: set<string>) {
    forall i :: IdsIn(stream(i)) <= all
  }

  /** Whatever the reader answers, a watch that sees finitely many new ids settles within the bound. */
  lemma {:induction false} EveryWatchSettles(
    policy: WatchPolicy, seen: set<string>, stream: nat -> Poll, ids: set<string>)
    returns (n: nat, outcome: Outcome)
    requires MakesProgress(policy)
    requires ShowsOnly(stream, seen + ids)
    ensures 1 <= n <= SettleBound(policy, |ids|)
    ensures Settles(policy, seen, Prefix(stream, n), outcome)
  {
    var bound := SettleBound(policy, |ids|);
    n := 0;
    while Alive(policy, seen, Prefix(stream, n))
      invariant n <= bound
      invariant n > 0 ==> Alive(policy, seen, Prefix(stream, n - 1))
      decreases bound - n
    {
      StreamIds(stream, n, seen + ids);
      SubsetSize(IdsOf(Prefix(stream, n)) - seen, ids);
      LiveWatchIsShort(policy, seen, Prefix(stream, n));
      BoundMonotone(policy, |IdsOf(Prefix(stream, n)) - seen|, |ids|);
      n := n + 1;
      assert Prefix(stream, n)[..n - 1] == Prefix(stream, n - 1);
    }
    assert Prefix(stream, n)[..n - 1] == Prefix(stream, n - 1);
    outcome := Answer(policy, seen, Prefix(stream, n - 1), stream(n - 1)).outcome;
  }

  lemma BoundMonotone(policy: WatchPolicy, a: nat, b: nat)
    requires MakesProgress(policy) && a <= b
    ensures SettleBound(policy, a) <= SettleBound(policy, b)
  {
    NewsCostMonotone(Tolerated(policy), a, b);
  }

  lemma {:induction false} StreamIds(stream: nat -> Poll, n: nat, all: set<string>)
    requires ShowsOnly(stream, all)
    ensures IdsOf(Prefix(stream, n)) <= all
  {
    if n > 0 {
      StreamIds(stream, n - 1, all);
      assert Prefix(stream, n)[..n - 1] == Prefix(stream, n - 1);
    }
  }

  // ---------------------------------------------------------------------------
  // Silence
  // ---------------------------------------------------------------------------

  /** `Quiet` is silence that was actually observed, to the end of the window. */
  lemma QuietIff(policy: WatchPolicy, seen: set<string>, earlier: seq<Poll>, poll: Poll)
    requires Alive(policy, seen, earlier)
    ensures Answer(policy, seen, earlier, poll) == Settled(Quiet)
            <==>
            && !AnyFailed(earlier + [poll])
            && IdsOf(earlier + [poll]) <= seen
            && LastOutstanding(earlier + [poll]) == 0
            && Sum(DelaysHandedOut(policy, seen, earlier)) >= policy.window
  {
    SilenceIff(policy, seen, earlier, poll);
    FailuresSnoc(earlier, poll);
  }

  /** A silence long enough to be judged: an observation with nothing new, at the end of the window. */
  predicate SilenceAt(policy: WatchPolicy, seen: set<string>, earlier: seq<Poll>, poll: Poll)
    requires Alive(policy, seen, earlier)
  {
    && poll.Observed? && IdsOf(earlier + [poll]) <= seen
    && Sum(DelaysHandedOut(policy, seen, earlier)) >= policy.window
  }

  function SilenceVerdict(earlier: seq<Poll>, outstanding: nat): Outcome {
    if outstanding > 0 then Inconclusive(StillRunning(outstanding))
    else if AnyFailed(earlier) then Inconclusive(Unverified(LastError(earlier)))
    else Quiet
  }

  lemma SilenceAnswer(policy: WatchPolicy, seen: set<string>, earlier: seq<Poll>, poll: Poll)
    requires Alive(policy, seen, earlier)
    ensures var w := Answer(policy, seen, earlier, poll);
            && (SilenceAt(policy, seen, earlier, poll) ==> w == Settled(SilenceVerdict(earlier, poll.outstanding)))
            && (w.Settled? && (w.outcome.Quiet? || (w.outcome.Inconclusive? && !w.outcome.doubt.GaveUp?))
                ==> SilenceAt(policy, seen, earlier, poll))
  {
    NewsSnoc(seen, earlier, poll);
    ElapsedIsSumOfDelays(policy, seen, earlier);
    NoNewsIff(seen, earlier);
  }

  /**
   * What a silence is taken for: running checks outrank an earlier failed poll, whose last error is
   * named, and only a silence with neither is quiet.
   */
  lemma SilenceIff(policy: WatchPolicy, seen: set<string>, earlier: seq<Poll>, poll: Poll)
    requires Alive(policy, seen, earlier)
    ensures var w := Answer(policy, seen, earlier, poll);
            var silence := SilenceAt(policy, seen, earlier, poll);
            && (w == Settled(Quiet) <==> silence && poll.outstanding == 0 && !AnyFailed(earlier))
            && (forall n :: w == Settled(Inconclusive(StillRunning(n)))
                  <==> silence && n > 0 && n == poll.outstanding)
            && (forall error :: w == Settled(Inconclusive(Unverified(error)))
                  <==> silence && poll.outstanding == 0 && AnyFailed(earlier) && error == LastError(earlier))
  {
    SilenceAnswer(policy, seen, earlier, poll);
  }

  predicate IsSilent(seen: set<string>, poll: Poll) {
    poll.Observed? && poll.outstanding == 0 && IdsIn(poll) <= seen
  }

  predicate AllSilent(seen: set<string>, polls: seq<Poll>) {
    forall i :: 0 <= i < |polls| ==> IsSilent(seen, polls[i])
  }

  lemma {:induction false} SilentHistory(policy: WatchPolicy, seen: set<string>, polls: seq<Poll>)
    requires AllSilent(seen, polls)
    ensures IdsOf(polls) <= seen && NewsPolls(seen, polls) == 0 && NewsOf(seen, polls) == [] && !AnyFailed(polls)
    ensures Waited(policy, seen, polls) == BackoffSum(policy, |polls|)
  {
    if polls != [] {
      SilentHistory(policy, seen, polls[..|polls| - 1]);
    }
    NoNewsIff(seen, polls);
  }

  lemma {:induction false} BackoffSumMonotone(policy: WatchPolicy, a: nat, b: nat)
    requires a <= b
    ensures BackoffSum(policy, a) <= BackoffSum(policy, b)
  {
    if a < b {
      BackoffSumMonotone(policy, a, b - 1);
    }
  }

  /**
   * An all-silent run lives exactly as long as the backoff sum stays under the window: it hands
   * out `k` delays, `k` the least number whose sum reaches the window, and the next poll is quiet.
   */
  lemma {:induction false} SilentRun(policy: WatchPolicy, seen: set<string>, polls: seq<Poll>, k: nat)
    requires AllSilent(seen, polls)
    requires BackoffSum(policy, k) >= policy.window
    requires k > 0 ==> BackoffSum(policy, k - 1) < policy.window
    ensures Alive(policy, seen, polls) <==> |polls| <= k
    ensures Settles(policy, seen, polls, Quiet) <==> |polls| == k + 1
  {
    if polls != [] {
      var earlier, last := polls[..|polls| - 1], polls[|polls| - 1];
      SilentRun(policy, seen, earlier, k);
      SilentAnswer(policy, seen, earlier, last);
      if |earlier| < k {
        BackoffSumMonotone(policy, |earlier|, k - 1);
      } else {
        BackoffSumMonotone(policy, k, |earlier|);
      }
    }
  }

  lemma SilentAnswer(policy: WatchPolicy, seen: set<string>, earlier: seq<Poll>, poll: Poll)
    requires AllSilent(seen, earlier) && IsSilent(seen, poll)
    ensures Answer(policy, seen, earlier, poll)
            == if BackoffSum(policy, |earlier|) < policy.window then WaitFor(DelayFor(policy, |earlier|))
               else Settled(Quiet)
  {
    SilentHistory(policy, seen, earlier);
  }

  /** With nothing to wait for, silence settles if and only if the window is empty. */
  lemma {:induction false} ZeroDelaySilence(policy: WatchPolicy, seen: set<string>, polls: seq<Poll>)
    requires Min(policy.firstDelay, policy.maxDelay) == 0
    requires AllSilent(seen, polls)
    ensures Alive(policy, seen, polls) <==> polls == [] || policy.window > 0
  {
    if polls != [] {
      var earlier, last := polls[..|polls| - 1], polls[|polls| - 1];
      ZeroDelaySilence(policy, seen, earlier);
      SilentAnswer(policy, seen, earlier, last);
      ZeroBackoff(policy, |earlier|);
    }
  }

  ghost predicate EventuallySettles(policy: WatchPolicy, seen: set<string>, stream: nat -> Poll) {
    exists n: nat, outcome :: Settles(policy, seen, Prefix(stream, n), outcome)
  }

  /**
   * Every watch that sees finitely many new ids settles if and only if waiting makes progress or
   * there is nothing to wait for.
   */
  lemma AlwaysSettlesIff(policy: WatchPolicy, seen: set<string>)
    ensures MakesProgress(policy)
            <==> forall stream, ids :: ShowsOnly(stream, seen + ids) ==> EventuallySettles(policy, seen, stream)
  {
    if MakesProgress(policy) {
      forall stream, ids | ShowsOnly(stream, seen + ids)
        ensures EventuallySettles(policy, seen, stream)
      {
        var n, outcome := EveryWatchSettles(policy, seen, stream, ids);
      }
    } else {
      var silence := (i: nat) => Observed([], 0);
      assert ShowsOnly(silence, seen + {});
      forall n: nat, outcome
        ensures !Settles(policy, seen, Prefix(silence, n), outcome)
      {
        ZeroDelaySilence(policy, seen, Prefix(silence, n));
      }
      assert !EventuallySettles(policy, seen, silence);
    }
  }

  lemma {:induction false} ZeroBackoff(policy: WatchPolicy, n: nat)
    requires Min(policy.firstDelay, policy.maxDelay) == 0
    ensures BackoffSum(policy, n) == 0
  {
    if n > 0 {
      ZeroBackoff(policy, n - 1);
      DoubledIsPower(0, Min(n - 1, 16));
    }
  }

  // ---------------------------------------------------------------------------
  // The longest watch
  // ---------------------------------------------------------------------------

  function Silences(n: nat): seq<Poll> {
    seq(n, _ => Observed([], 0))
  }

  function ThenFailures(polls: seq<Poll>, n: nat, reason: string): seq<Poll> {
    if n == 0 then polls else ThenFailures(polls, n - 1, reason) + [Unavailable(reason)]
  }

  /** Silence to the end of the window, then item after item, with a tolerated streak of failures after each part. */
  function SlowPolls(policy: WatchPolicy, items: seq<FeedbackItem>, k: nat, reason: string): seq<Poll> {
    if items == [] then ThenFailures(Silences(k), Tolerated(policy), reason)
    else
      var n := |items| - 1;
      ThenFailures(SlowPolls(policy, items[..n], k, reason) + [Observed([items[n]], 0)], Tolerated(policy), reason)
  }

  /** `longer` is a live history that `n` failures have made of `polls`. */
  predicate FailedOn(policy: WatchPolicy, seen: set<string>, polls: seq<Poll>, longer: seq<Poll>, n: nat) {
    && Alive(policy, seen, longer) && FailureStreak(longer) == n && |longer| == |polls| + n
    && IdsOf(longer) == IdsOf(polls) && NewsOf(seen, longer) == NewsOf(seen, polls)
  }

  lemma OneFailureMore(
    policy: WatchPolicy, seen: set<string>, polls: seq<Poll>, longer: seq<Poll>, n: nat, reason: string)
    requires FailedOn(policy, seen, polls, longer, n) && n < Tolerated(policy)
    ensures FailedOn(policy, seen, polls, longer + [Unavailable(reason)], n + 1)
  {
    FailureAnswer(policy, seen, longer, reason);
    AliveSnoc(policy, seen, longer, Unavailable(reason));
    NewsSnoc(seen, longer, Unavailable(reason));
    FailuresSnoc(longer, Unavailable(reason));
  }

  lemma {:induction false} AliveThroughFailures(
    policy: WatchPolicy, seen: set<string>, polls: seq<Poll>, n: nat, reason: string)
    requires Alive(policy, seen, polls) && FailureStreak(polls) == 0 && n <= Tolerated(policy)
    ensures FailedOn(policy, seen, polls, ThenFailures(polls, n, reason), n)
  {
    if n > 0 {
      AliveThroughFailures(policy, seen, polls, n - 1, reason);
      OneFailureMore(policy, seen, polls, ThenFailures(polls, n - 1, reason), n - 1, reason);
    }
  }

  lemma NewItemKeepsAlive(policy: WatchPolicy, seen: set<string>, polls: seq<Poll>, item: FeedbackItem)
    requires Alive(policy, seen, polls) && item.id !in seen + IdsOf(polls)
    ensures var longer := polls + [Observed([item], 0)];
            Alive(policy, seen, longer) && FailureStreak(longer) == 0 && IdsOf(longer) == IdsOf(polls) + {item.id}
  {
    var poll := Observed([item], 0);
    assert item in [item] && IdsIn(poll) == {item.id};
    AliveSnoc(policy, seen, polls, poll);
    NewsSnoc(seen, polls, poll);
    FailuresSnoc(polls, poll);
  }

  lemma SilencesLive(policy: WatchPolicy, seen: set<string>, k: nat)
    requires Covers(policy, k) && (k > 0 ==> !Covers(policy, k - 1))
    ensures Alive(policy, seen, Silences(k)) && FailureStreak(Silences(k)) == 0 && IdsOf(Silences(k)) == {}
  {
    SilentRun(policy, seen, Silences(k), k);
    SilentHistory(policy, {}, Silences(k));
  }

  lemma {:induction false} SlowPollsLive(
    policy: WatchPolicy, seen: set<string>, items: seq<FeedbackItem>, k: nat, reason: string)
    requires Covers(policy, k) && (k > 0 ==> !Covers(policy, k - 1))
    requires DistinctIds(items) && Ids(items) !! seen
    ensures var polls := SlowPolls(policy, items, k, reason);
            && Alive(policy, seen, polls) && FailureStreak(polls) == Tolerated(policy) && IdsOf(polls) == Ids(items)
            && |polls| == k + NewsCost(Tolerated(policy), |items|) + Tolerated(policy)
  {
    if items == [] {
      SilencesLive(policy, seen, k);
      AliveThroughFailures(policy, seen, Silences(k), Tolerated(policy), reason);
    } else {
      var rest, last := items[..|items| - 1], items[|items| - 1];
      assert items == rest + [last];
      IdsConcat(rest, [last]);
      DistinctLast(rest, last);
      SlowPollsLive(policy, seen, rest, k, reason);
      var earlier := SlowPolls(policy, rest, k, reason);
      NewItemKeepsAlive(policy, seen, earlier, last);
      AliveThroughFailures(policy, seen, earlier + [Observed([last], 0)], Tolerated(policy), reason);
    }
  }

  lemma DistinctLast(rest: seq<FeedbackItem>, last: FeedbackItem)
    requires DistinctIds(rest + [last])
    ensures DistinctIds(rest) && last.id !in Ids(rest) && Ids([last]) == {last.id}
  {
    var all := rest + [last];
    assert all[|rest|] == last && forall i :: 0 <= i < |rest| ==> all[i] == rest[i];
    assert last in [last];
  }

  lemma {:induction false} DistinctIdsSize(items: seq<FeedbackItem>)
    requires DistinctIds(items)
    ensures |Ids(items)| == |items|
  {
    if items != [] {
      var rest, last := items[..|items| - 1], items[|items| - 1];
      assert items == rest + [last];
      DistinctLast(rest, last);
      IdsConcat(rest, [last]);
      DistinctIdsSize(rest);
    }
  }

  lemma SettledWatchIsShort(policy: WatchPolicy, k: nat, seen: set<string>, polls: seq<Poll>, outcome: Outcome)
    requires Covers(policy, k)
    requires Settles(policy, seen, polls, outcome)
    ensures |polls| <= LongestWatch(policy, k, |IdsOf(polls) - seen|)
  {
    var earlier := polls[..|polls| - 1];
    LiveWatchIsShorter(policy, k, seen, earlier);
    assert IdsOf(earlier) <= IdsOf(polls);
    SubsetSize(IdsOf(earlier) - seen, IdsOf(polls) - seen);
    NewsCostMonotone(Tolerated(policy), |IdsOf(earlier) - seen|, |IdsOf(polls) - seen|);
  }

  /** A watch that shows these new items and takes exactly as many polls as one with so many may. */
  lemma LongestWatchExists(policy: WatchPolicy, k: nat, seen: set<string>, items: seq<FeedbackItem>, reason: string)
    returns (polls: seq<Poll>)
    requires Covers(policy, k) && (k > 0 ==> !Covers(policy, k - 1))
    requires DistinctIds(items) && Ids(items) !! seen
    ensures Settles(policy, seen, polls, Inconclusive(GaveUp(Tolerated(policy) + 1, reason)))
    ensures IdsOf(polls) - seen == Ids(items)
    ensures |polls| == LongestWatch(policy, k, |items|)
  {
    var earlier := SlowPolls(policy, items, k, reason);
    SlowPollsLive(policy, seen, items, k, reason);
    FailureSettles(policy, seen, earlier, reason);
    NewsSnoc(seen, earlier, Unavailable(reason));
    polls := earlier + [Unavailable(reason)];
  }

  /** Some watch with exactly `f` new ids takes `n` polls. */
  ghost predicate Takes(policy: WatchPolicy, seen: set<string>, f: nat, n: nat) {
    exists polls, outcome :: Settles(policy, seen, polls, outcome) && |IdsOf(polls) - seen| == f && |polls| == n
  }

  /**
   * The bound on polls is attained exactly when one wait less than it reckons with would not cover
   * the window; `items` are any new items.
   */
  lemma SettleBoundAttainedIff(policy: WatchPolicy, seen: set<string>, items: seq<FeedbackItem>)
    requires MakesProgress(policy)
    requires DistinctIds(items) && Ids(items) !! seen
    ensures Takes(policy, seen, |items|, SettleBound(policy, |items|))
            <==> WindowPolls(policy) == 0 || !Covers(policy, WindowPolls(policy) - 1)
  {
    WindowPollsCover(policy);
    LongestIsTakenIff(policy, WindowPolls(policy), seen, items);
  }

  lemma LongestIsTakenIff(policy: WatchPolicy, k: nat, seen: set<string>, items: seq<FeedbackItem>)
    requires Covers(policy, k)
    requires DistinctIds(items) && Ids(items) !! seen
    ensures Takes(policy, seen, |items|, LongestWatch(policy, k, |items|)) <==> k == 0 || !Covers(policy, k - 1)
  {
    if k == 0 || !Covers(policy, k - 1) {
      LongestIsTaken(policy, k, seen, items);
    } else {
      NothingTakesLonger(policy, k - 1, seen, |items|, LongestWatch(policy, k, |items|));
    }
  }

  lemma LongestIsTaken(policy: WatchPolicy, k: nat, seen: set<string>, items: seq<FeedbackItem>)
    requires Covers(policy, k) && (k > 0 ==> !Covers(policy, k - 1))
    requires DistinctIds(items) && Ids(items) !! seen
    ensures Takes(policy, seen, |items|, LongestWatch(policy, k, |items|))
  {
    DistinctIdsSize(items);
    var polls := LongestWatchExists(policy, k, seen, items, "");
    assert |IdsOf(polls) - seen| == |items|;
  }

  lemma NothingTakesLonger(policy: WatchPolicy, k: nat, seen: set<string>, f: nat, n: nat)
    requires Covers(policy, k) && n > LongestWatch(policy, k, f)
    ensures !Takes(policy, seen, f, n)
  {
    if polls, outcome :| Settles(policy, seen, polls, outcome) && |IdsOf(polls) - seen| == f && |polls| == n {
      SettledWatchIsShort(policy, k, seen, polls, outcome);
    }
  }

  /** Constant delays are such a case. */
  lemma ConstantDelaysAttain(policy: WatchPolicy)
    requires MakesProgress(policy) && policy.maxDelay <= policy.firstDelay
    ensures WindowPolls(policy) == 0 || !Covers(policy, WindowPolls(policy) - 1)
  {
    if policy.window > 0 {
      var k := WindowPolls(policy) - 1;
      CeilDivIsCeiling(policy.window, policy.maxDelay);
      ConstantBackoff(policy, k);
      RepeatedIsProduct(policy.maxDelay, k);
    }
  }

  lemma {:induction false} ConstantBackoff(policy: WatchPolicy, n: nat)
    requires policy.maxDelay <= policy.firstDelay
    ensures BackoffSum(policy, n) == Repeated(policy.maxDelay, n)
  {
    if n > 0 {
      ConstantBackoff(policy, n - 1);
      DoubledMonotone(policy.firstDelay, 0, Min(n - 1, 16));
    }
  }

  // ---------------------------------------------------------------------------
  // Items
  // ---------------------------------------------------------------------------

  ghost predicate DistinctIds(items: seq<FeedbackItem>) {
    forall i, j :: 0 <= i < j < |items| ==> items[i].id != items[j].id
  }

  ghost predicate DistinctPolls(polls: seq<Poll>) {
    forall i :: 0 <= i < |polls| && polls[i].Observed? ==> DistinctIds(polls[i].items)
  }

  lemma DistinctConcat(a: seq<FeedbackItem>, b: seq<FeedbackItem>)
    requires Ids(a) !! Ids(b)
    ensures DistinctIds(a + b) <==> DistinctIds(a) && DistinctIds(b)
  {
    assert forall i :: 0 <= i < |a| ==> (a + b)[i] == a[i] && a[i].id in Ids(a);
    assert forall i :: 0 <= i < |b| ==> (a + b)[|a| + i] == b[i] && b[i].id in Ids(b);
    forall i, j | 0 <= i < j < |a + b| && DistinctIds(a) && DistinctIds(b)
      ensures (a + b)[i].id != (a + b)[j].id
    {
      assert i < |a| <= j ==> a[i].id in Ids(a) && b[j - |a|].id in Ids(b);
    }
  }

  /** No poll repeats an id among the items it is the first to show. */
  ghost predicate DistinctNews(seen: set<string>, polls: seq<Poll>) {
    forall i :: 0 <= i < |polls| && polls[i].Observed?
      ==> DistinctIds(Fresh(seen + IdsOf(polls[..i]), polls[i].items))
  }

  lemma DistinctNewsSnoc(seen: set<string>, earlier: seq<Poll>, poll: Poll)
    ensures DistinctNews(seen, earlier + [poll])
            <==> (&& DistinctNews(seen, earlier)
                  && (poll.Observed? ==> DistinctIds(Fresh(seen + IdsOf(earlier), poll.items))))
  {
    var polls := earlier + [poll];
    assert polls[|earlier|] == poll && polls[..|earlier|] == earlier;
    assert forall i :: 0 <= i < |earlier| ==> polls[i] == earlier[i] && polls[..i] == earlier[..i];
  }

  /** The items a history is the first to show have distinct ids exactly when no single poll repeats one of them. */
  lemma {:induction false} NewsDistinctIff(seen: set<string>, polls: seq<Poll>)
    ensures DistinctIds(NewsOf(seen, polls)) <==> DistinctNews(seen, polls)
  {
    if polls != [] {
      var earlier, last := polls[..|polls| - 1], polls[|polls| - 1];
      assert polls == earlier + [last];
      NewsDistinctIff(seen, earlier);
      DistinctNewsSnoc(seen, earlier, last);
      if last.Observed? {
        FreshItems(seen + IdsOf(earlier), last.items);
        NewsIds(seen, earlier);
        DistinctConcat(NewsOf(seen, earlier), Fresh(seen + IdsOf(earlier), last.items));
      }
    }
  }

  lemma {:induction false} FreshDistinct(seen: set<string>, items: seq<FeedbackItem>)
    requires DistinctIds(items)
    ensures DistinctIds(Fresh(seen, items))
  {
    if items != [] {
      var rest, last := items[..|items| - 1], items[|items| - 1];
      FreshDistinct(seen, rest);
      FreshItems(seen, rest);
      assert forall item :: item in rest ==> item.id != last.id;
      DistinctConcat(Fresh(seen, rest), [last]);
    }
  }

  /** Polls that repeat no id at all are among those that qualify. */
  lemma DistinctPollsQualify(seen: set<string>, polls: seq<Poll>)
    requires DistinctPolls(polls)
    ensures DistinctNews(seen, polls)
  {
    forall i | 0 <= i < |polls| && polls[i].Observed?
      ensures DistinctIds(Fresh(seen + IdsOf(polls[..i]), polls[i].items))
    {
      FreshDistinct(seen + IdsOf(polls[..i]), polls[i].items);
    }
  }

  /**
   * While a watch lives, what it has added to the ledger is exactly what it still owes a report
   * of; each id is owed once exactly when no poll repeats an id that is new.
   */
  lemma {:induction false} LedgerIsPending(policy: WatchPolicy, seen: set<string>, polls: seq<Poll>)
    requires Alive(policy, seen, polls)
    ensures var s := After(policy, seen, polls);
            && s.seen == seen + Ids(s.pending)
            && Ids(s.pending) !! seen
            && s.pending == NewsOf(seen, polls)
            && (DistinctIds(s.pending) <==> DistinctNews(seen, polls))
  {
    MachineFollowsHistory(policy, seen, polls);
    NewsIds(seen, polls);
    NewsDistinctIff(seen, polls);
  }

  function Reported(outcome: Outcome): seq<FeedbackItem> {
    match outcome
    case NewFeedback(items) => items
    case BotAllClear(items) => items
    case _ => []
  }

  /** An observation that settles a watch reports everything that was new before it and shows nothing new. */
  lemma SettlingPoll(policy: WatchPolicy, seen: set<string>, earlier: seq<Poll>, poll: Poll, outcome: Outcome)
    requires Answer(policy, seen, earlier, poll) == Settled(outcome)
    ensures NewsOf(seen, earlier + [poll]) == NewsOf(seen, earlier)
    ensures Reported(outcome) == if poll.Observed? then NewsOf(seen, earlier) else []
    ensures poll.Observed? && NewsOf(seen, earlier) != [] ==> outcome == Classify(NewsOf(seen, earlier))
    ensures outcome.NewFeedback? || outcome.BotAllClear? ==> poll.Observed? && NewsOf(seen, earlier) != []
    ensures poll.Unavailable? <==> outcome.Inconclusive? && outcome.doubt.GaveUp?
  {
    NoNewsSnoc(seen, earlier, poll);
  }

  lemma NoNewsSnoc(seen: set<string>, earlier: seq<Poll>, poll: Poll)
    requires !BringsNews(seen, earlier, poll)
    ensures NewsOf(seen, earlier + [poll]) == NewsOf(seen, earlier)
  {
    NewsSnoc(seen, earlier, poll);
    if poll.Observed? {
      FreshItems(seen + IdsOf(earlier), poll.items);
      assert NewsOf(seen, earlier) + [] == NewsOf(seen, earlier);
    }
  }

  /** The last poll decides: a watch settled by an observation reports, one settled by a failure does not. */
  lemma ObservedReports(policy: WatchPolicy, seen: set<string>, polls: seq<Poll>, outcome: Outcome)
    requires Settles(policy, seen, polls, outcome)
    ensures Reported(outcome) == if polls[|polls| - 1].Observed? then NewsOf(seen, polls) else []
    ensures polls[|polls| - 1].Observed? && NewsOf(seen, polls) != [] ==> outcome == Classify(NewsOf(seen, polls))
  {
    var earlier, last := polls[..|polls| - 1], polls[|polls| - 1];
    assert polls == earlier + [last];
    SettlingPoll(policy, seen, earlier, last, outcome);
  }

  lemma ReportedBatch(policy: WatchPolicy, seen: set<string>, polls: seq<Poll>, outcome: Outcome)
    requires Settles(policy, seen, polls, outcome) && (outcome.NewFeedback? || outcome.BotAllClear?)
    ensures polls[|polls| - 1].Observed? && NewsOf(seen, polls) != []
  {
    var earlier, last := polls[..|polls| - 1], polls[|polls| - 1];
    assert polls == earlier + [last];
    SettlingPoll(policy, seen, earlier, last, outcome);
  }

  predicate EndsInFailures(policy: WatchPolicy, polls: seq<Poll>) {
    && Tolerated(policy) < |polls|
    && forall i :: |polls| - 1 - Tolerated(policy) <= i < |polls| ==> polls[i].Unavailable?
  }

  /** A settled watch was settled by a failed poll exactly when its polls end in a full streak of failures. */
  lemma SettledByFailureIff(policy: WatchPolicy, seen: set<string>, polls: seq<Poll>, outcome: Outcome)
    requires Settles(policy, seen, polls, outcome)
    ensures polls[|polls| - 1].Unavailable? <==> EndsInFailures(policy, polls)
  {
    var earlier, last := polls[..|polls| - 1], polls[|polls| - 1];
    assert polls == earlier + [last];
    SettlingPoll(policy, seen, earlier, last, outcome);
    GivesUpIff(policy, seen, earlier, last);
  }

  /**
   * A settled watch reports every item it was the first to see, in order, or none at all: they are
   * lost - in the ledger, never reported - exactly when the polls end in a full streak of failures.
   */
  lemma ReportsAllOrNothing(policy: WatchPolicy, seen: set<string>, polls: seq<Poll>, outcome: Outcome)
    requires Settles(policy, seen, polls, outcome)
    ensures Reported(outcome) == if EndsInFailures(policy, polls) then [] else NewsOf(seen, polls)
    ensures Ids(Reported(outcome)) != IdsOf(polls) - seen
            <==> EndsInFailures(policy, polls) && NewsOf(seen, polls) != []
  {
    ObservedReports(policy, seen, polls, outcome);
    SettledByFailureIff(policy, seen, polls, outcome);
    NewsIds(seen, polls);
    NoIdsIff(NewsOf(seen, polls));
  }

  lemma NoIdsIff(items: seq<FeedbackItem>)
    ensures Ids(items) == {} <==> items == []
    ensures Ids([]) == {}
  {
    if items != [] {
      assert items[0].id in Ids(items);
    }
  }

  lemma FirstPollShows(items: seq<FeedbackItem>, outstanding: nat)
    ensures NewsOf({}, [Observed(items, outstanding)]) == Fresh({}, items)
    ensures BringsNews({}, [], Observed(items, outstanding)) <==> items != []
    ensures IdsOf([Observed(items, outstanding)]) == Ids(items)
  {
    var poll := Observed(items, outstanding);
    assert [] + [poll] == [poll];
    NewsSnoc({}, [], poll);
    var none: set<string> := {};
    assert none + IdsOf([]) == none && IdsOf([]) + Ids(items) == Ids(items);
    NoIdsIff(items);
  }

  /** An item seen once and then a full streak of failures: in the ledger, and lost. */
  lemma SeenThenFailuresIsLost(policy: WatchPolicy, item: FeedbackItem, reason: string)
    ensures var polls := ThenFailures([Observed([item], 0)], Tolerated(policy) + 1, reason);
            var outcome := Inconclusive(GaveUp(Tolerated(policy) + 1, reason));
            Settles(policy, {}, polls, outcome) && NewsOf({}, polls) == [item] && Reported(outcome) == []
  {
    var shown, n := [Observed([item], 0)], Tolerated(policy);
    ItemIsPending(policy, item);
    AliveThroughFailures(policy, {}, shown, n, reason);
    FailureSettles(policy, {}, ThenFailures(shown, n, reason), reason);
    assert ThenFailures(shown, n + 1, reason) == ThenFailures(shown, n, reason) + [Unavailable(reason)];
  }

  lemma ItemIsPending(policy: WatchPolicy, item: FeedbackItem)
    ensures var polls := [Observed([item], 0)];
            Alive(policy, {}, polls) && NewsOf({}, polls) == [item] && FailureStreak(polls) == 0
  {
    assert [] + [Observed([item], 0)] == [Observed([item], 0)];
    NewItemKeepsAlive(policy, {}, [], item);
    FirstPollShows([item], 0);
    assert [item][..0] == [];
  }

  lemma FailureSettles(policy: WatchPolicy, seen: set<string>, earlier: seq<Poll>, reason: string)
    requires Alive(policy, seen, earlier) && FailureStreak(earlier) == Tolerated(policy)
    ensures Settles(policy, seen, earlier + [Unavailable(reason)],
                    Inconclusive(GaveUp(Tolerated(policy) + 1, reason)))
    ensures NewsOf(seen, earlier + [Unavailable(reason)]) == NewsOf(seen, earlier)
  {
    FailureAnswer(policy, seen, earlier, reason);
    AliveSnoc(policy, seen, earlier, Unavailable(reason));
    NewsSnoc(seen, earlier, Unavailable(reason));
  }

  /**
   * The all-clear is given exactly when an observation settled a batch of bots only, none of which
   * objects; feedback is reported exactly when it settled a batch with something to act on.
   */
  lemma BatchVerdict(policy: WatchPolicy, seen: set<string>, polls: seq<Poll>, outcome: Outcome)
    requires Settles(policy, seen, polls, outcome)
    ensures var batch := NewsOf(seen, polls);
            var settled := polls[|polls| - 1].Observed? && batch != [];
            && (outcome.BotAllClear?
                <==> settled && forall item :: item in batch ==> item.bot && item.verdict != NeedsWork)
            && (outcome.NewFeedback?
                <==> settled && exists item :: item in batch && (!item.bot || item.verdict == NeedsWork))
  {
    ObservedReports(policy, seen, polls, outcome);
    ClassifyIff(NewsOf(seen, polls));
    if outcome.NewFeedback? || outcome.BotAllClear? {
      ReportedBatch(policy, seen, polls, outcome);
    }
  }

  lemma ClassifyIff(items: seq<FeedbackItem>)
    ensures Classify(items).BotAllClear? <==> forall item :: item in items ==> item.bot && item.verdict != NeedsWork
  {
    if i :| 0 <= i < |items| && items[i].IsActionable() {
      assert items[i] in items;
    }
  }

  lemma {:induction false} StreakIff(polls: seq<Poll>, n: nat)
    ensures FailureStreak(polls) >= n
            <==> n <= |polls| && forall i :: |polls| - n <= i < |polls| ==> polls[i].Unavailable?
  {
    if n > 0 && polls != [] {
      var earlier := polls[..|polls| - 1];
      StreakIff(earlier, n - 1);
      assert polls == earlier + [polls[|polls| - 1]];
    }
  }

  /** The watch gives up exactly when the last `maxFailures` polls (at least one) all failed. */
  lemma GivesUpIff(policy: WatchPolicy, seen: set<string>, earlier: seq<Poll>, poll: Poll)
    ensures var polls := earlier + [poll];
            var w := Answer(policy, seen, earlier, poll);
            w.Settled? && w.outcome.Inconclusive? && w.outcome.doubt.GaveUp? <==> EndsInFailures(policy, polls)
  {
    StreakIff(earlier + [poll], Tolerated(policy) + 1);
    FailuresSnoc(earlier, poll);
  }

  /** The exit code is zero exactly when the last poll was read and nothing in the history objects or is in doubt. */
  lemma ExitZeroIff(policy: WatchPolicy, seen: set<string>, polls: seq<Poll>, outcome: Outcome)
    requires Settles(policy, seen, polls, outcome)
    ensures ExitCode(outcome) == 0
            <==>
            && polls[|polls| - 1].Observed?
            && (forall item :: item in NewsOf(seen, polls) ==> item.bot && item.verdict != NeedsWork)
            && (NewsOf(seen, polls) == [] ==> !AnyFailed(polls) && LastOutstanding(polls) == 0)
  {
    var earlier, last := polls[..|polls| - 1], polls[|polls| - 1];
    assert polls == earlier + [last];
    SettlingPoll(policy, seen, earlier, last, outcome);
    FailuresSnoc(earlier, last);
    ClassifyIff(NewsOf(seen, polls));
    if last.Observed? && NewsOf(seen, polls) == [] {
      SettledBySilence(policy, seen, earlier, last, outcome);
    }
  }

  /** The other two codes: three for something to act on, one for a watch that could not tell. */
  lemma ExitCodesIff(policy: WatchPolicy, seen: set<string>, polls: seq<Poll>, outcome: Outcome)
    requires Settles(policy, seen, polls, outcome)
    ensures ExitCode(outcome) in {0, 1, 3}
    ensures ExitCode(outcome) == 3
            <==> (&& polls[|polls| - 1].Observed?
                  && exists item :: item in NewsOf(seen, polls) && (!item.bot || item.verdict == NeedsWork))
    ensures ExitCode(outcome) == 1 <==> outcome.Inconclusive?
  {
    BatchVerdict(policy, seen, polls, outcome);
  }

  lemma SettledBySilence(policy: WatchPolicy, seen: set<string>, earlier: seq<Poll>, poll: Poll, outcome: Outcome)
    requires poll.Observed? && NewsOf(seen, earlier) == []
    requires Answer(policy, seen, earlier, poll) == Settled(outcome)
    ensures ExitCode(outcome) == 0 <==> !AnyFailed(earlier) && poll.outstanding == 0
  {
  }

  /**
   * Two items sharing an id inside one poll are both reported: the ledger is consulted for the whole
   * poll before it is updated.
   */
  lemma DuplicateIdInOnePoll(policy: WatchPolicy, item: FeedbackItem)
    ensures var polls := [Observed([item, item], 0), Observed([], 0)];
            var outcome := Classify([item, item]);
            && Settles(policy, {}, polls, outcome)
            && Reported(outcome) == [item, item] && !DistinctIds(Reported(outcome))
  {
    var first, second, twice := Observed([item, item], 0), Observed([], 0), [item, item];
    DuplicateIsPending(policy, item);
    AliveSnoc(policy, {}, [first], second);
    assert [first] + [second] == [first, second];
    assert twice[0].id == twice[1].id;
  }

  lemma DuplicateIsPending(policy: WatchPolicy, item: FeedbackItem)
    ensures var polls := [Observed([item, item], 0)];
            Alive(policy, {}, polls) && NewsOf({}, polls) == [item, item] && !BringsNews({}, polls, Observed([], 0))
  {
    var first, twice := Observed([item, item], 0), [item, item];
    assert twice[..1] == [item] && [item][..0] == [];
    assert Fresh({}, [item]) == [item];
    assert Fresh({}, twice) == twice;
    FirstPollShows(twice, 0);
    AliveSnoc(policy, {}, [], first);
    assert [] + [first] == [first];
  }
}
