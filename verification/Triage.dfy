/**
 * The watch-pr loop and the persisted triage ledgers (bin/cli/src/agent.rs): watches chained
 * through one store, one ledger per pull request.
 */
module Triage {
  import opened Wrappers
  import opened Feedback
  import opened WatchHistory
  import opened Widths

  type Ledgers = map<string, set<string>>

  function LedgerFor(entries: Ledgers, key: string): set<string> {
    if key in entries then entries[key] else {}
  }

  const SECOND: nat := 1_000_000_000

  function PolicyFor(windowSecs: Option<U64>): WatchPolicy {
    WatchPolicy(30 * SECOND, 300 * SECOND, if windowSecs.Some? then windowSecs.value * SECOND else 900 * SECOND,
                60 * SECOND, 3)
  }

  /** The default timings in nanoseconds; the caller may choose the window only, in seconds. */
  lemma PolicyIs(seconds: U64)
    ensures PolicyFor(None) == WatchPolicy(30_000_000_000, 300_000_000_000, 900_000_000_000, 60_000_000_000, 3)
    ensures PolicyFor(Some(seconds)) == PolicyFor(None).(window := seconds * 1_000_000_000)
  {
  }

  /** By default a silent watch waits 30, 60, 120, 240, 300 and 300 seconds, and is quiet at its seventh poll. */
  lemma DefaultSilentWatch(seen: set<string>, polls: seq<Poll>)
    requires AllSilent(seen, polls)
    ensures Settles(PolicyFor(None), seen, polls, Quiet) <==> |polls| == 7
    ensures Alive(PolicyFor(None), seen, polls) <==> |polls| <= 6
  {
    DefaultSums();
    SilentRun(PolicyFor(None), seen, polls, 6);
  }

  lemma DefaultSums()
    ensures BackoffSum(PolicyFor(None), 5) == 750 * SECOND && BackoffSum(PolicyFor(None), 6) == 1050 * SECOND
  {
    var p := PolicyFor(None);
    assert Doubled(30 * SECOND, 1) == 60 * SECOND && Doubled(30 * SECOND, 2) == 120 * SECOND;
    assert Doubled(30 * SECOND, 3) == 240 * SECOND && Doubled(30 * SECOND, 4) == 480 * SECOND;
    assert Doubled(30 * SECOND, 5) == 960 * SECOND;
    assert BackoffSum(p, 2) == 90 * SECOND;
    assert BackoffSum(p, 4) == 450 * SECOND;
  }

  class TriageStore {
    var entries: Ledgers

    constructor ()
      ensures entries == map[]
    {
      entries := map[];
    }

    method Load(key: string) returns (ledger: TriageLedger)
      ensures fresh(ledger)
      ensures ledger.seen == LedgerFor(entries, key)
      ensures key in entries ==> ledger.seen == entries[key]
      ensures key !in entries ==> ledger.seen == {}
    {
      ledger := new TriageLedger.FromIds(LedgerFor(entries, key));
    }

    method Save(key: string, ledger: TriageLedger)
      modifies this
      ensures entries == old(entries)[key := ledger.seen]
    {
      entries := entries[key := ledger.seen];
    }

    /**
     * Waits out the window of one pull request and stores the ledger, whatever the outcome. `ids`
     * bounds what the reader will ever show; `n` is the number of polls it took.
     */
    method WatchPullRequest(key: string, windowSecs: Option<U64>, reader: nat -> Poll, ghost ids: set<string>)
      returns (outcome: Outcome, ghost n: nat)
      requires ShowsOnly(reader, ids)
      modifies this
      ensures Settles(PolicyFor(windowSecs), LedgerFor(old(entries), key), Prefix(reader, n), outcome)
      ensures entries == old(entries)[key := LedgerFor(old(entries), key) + IdsOf(Prefix(reader, n))]
      ensures n <= SettleBound(PolicyFor(windowSecs), |ids|)
    {
      var ledger := Load(key);
      var watch := new FeedbackWatch(PolicyFor(windowSecs), ledger);
      outcome, n := PollUntilSettled(watch, reader, ids);
      Save(key, ledger);
    }
  }

  /** Observes poll after poll until the watch settles; the caller sleeps for each delay in between. */
  method PollUntilSettled(watch: FeedbackWatch, reader: nat -> Poll, ghost ids: set<string>)
    returns (outcome: Outcome, ghost n: nat)
    requires MakesProgress(watch.policy)
    requires watch.State() == Start(watch.ledger.seen)
    requires ShowsOnly(reader, ids)
    modifies watch, watch.ledger
    ensures Settles(watch.policy, old(watch.ledger.seen), Prefix(reader, n), outcome)
    ensures watch.ledger.seen == old(watch.ledger.seen) + IdsOf(Prefix(reader, n))
    ensures n <= SettleBound(watch.policy, |ids|)
  {
    ghost var policy, seen := watch.policy, watch.ledger.seen;
    var i := 0;
    while true
      invariant Alive(policy, seen, Prefix(reader, i))
      invariant watch.State() == StateOf(policy, seen, Prefix(reader, i))
      invariant i <= SettleBound(policy, |ids|)
      decreases SettleBound(policy, |ids|) - i
    {
      AliveWithinBound(policy, seen, reader, i, ids);
      ReaderStep(policy, seen, reader, i);
      var w := watch.Observe(reader(i));
      i := i + 1;
      if w.Settled? {
        return w.outcome, i;
      }
    }
  }

  /** Observing the next poll of a reader either keeps the watch alive or settles it. */
  lemma ReaderStep(policy: WatchPolicy, seen: set<string>, reader: nat -> Poll, i: nat)
    requires Alive(policy, seen, Prefix(reader, i))
    ensures var (s, w) := Step(policy, StateOf(policy, seen, Prefix(reader, i)), reader(i));
            && s.seen == seen + IdsOf(Prefix(reader, i + 1))
            && (w.WaitFor? ==> Alive(policy, seen, Prefix(reader, i + 1))
                               && s == StateOf(policy, seen, Prefix(reader, i + 1)))
            && (w.Settled? ==> Settles(policy, seen, Prefix(reader, i + 1), w.outcome))
  {
    assert Prefix(reader, i + 1) == Prefix(reader, i) + [reader(i)];
    AliveSnoc(policy, seen, Prefix(reader, i), reader(i));
    StepFollowsHistory(policy, seen, Prefix(reader, i), reader(i));
    StepKeepsLedger(policy, seen, Prefix(reader, i), reader(i));
  }

  lemma AliveWithinBound(policy: WatchPolicy, seen: set<string>, reader: nat -> Poll, n: nat, ids: set<string>)
    requires MakesProgress(policy)
    requires ShowsOnly(reader, ids)
    requires Alive(policy, seen, Prefix(reader, n))
    ensures n < SettleBound(policy, |ids|)
  {
    LiveWatchIsShort(policy, seen, Prefix(reader, n));
    StreamIds(reader, n, ids);
    SubsetSize(IdsOf(Prefix(reader, n)) - seen, ids);
    BoundMonotone(policy, |IdsOf(Prefix(reader, n)) - seen|, |ids|);
  }

  lemma StepKeepsLedger(policy: WatchPolicy, seen: set<string>, earlier: seq<Poll>, poll: Poll)
    ensures Step(policy, StateOf(policy, seen, earlier), poll).0.seen == seen + IdsOf(earlier + [poll])
  {
    NewsSnoc(seen, earlier, poll);
    if poll.Observed? {
      FreshItems(seen + IdsOf(earlier), poll.items);
      var news := Fresh(seen + IdsOf(earlier), poll.items);
      if news == [] {
        assert Ids(poll.items) <= seen + IdsOf(earlier);
      }
    }
  }

  // ---------------------------------------------------------------------------
  // Watches chained through the store
  // ---------------------------------------------------------------------------

  /** One completed run of the loop. */
  datatype Session = Session(key: string, policy: WatchPolicy, polls: seq<Poll>, outcome: Outcome)

  function StoreAfter(entries: Ledgers, sessions: seq<Session>): Ledgers {
    if sessions == [] then entries
    else
      var before, s := StoreAfter(entries, sessions[..|sessions| - 1]), sessions[|sessions| - 1];
      before[s.key := LedgerFor(before, s.key) + IdsOf(s.polls)]
  }

  ghost predicate Completed(entries: Ledgers, sessions: seq<Session>) {
    forall i :: 0 <= i < |sessions| ==> CompletedAt(entries, sessions, i)
  }

  /** The watch settled, starting from the ledger that the watches before it left. */
  predicate CompletedAt(entries: Ledgers, sessions: seq<Session>, i: nat)
    requires i < |sessions|
  {
    var s := sessions[i];
    Settles(s.policy, LedgerFor(StoreAfter(entries, sessions[..i]), s.key), s.polls, s.outcome)
  }

  /** Everything ever reported for one pull request, in order. */
  function ReportedFor(key: string, sessions: seq<Session>): seq<FeedbackItem> {
    if sessions == [] then []
    else
      var rest, s := ReportedFor(key, sessions[..|sessions| - 1]), sessions[|sessions| - 1];
      if s.key == key then rest + Reported(s.outcome) else rest
  }

  function SeenFor(key: string, sessions: seq<Session>): set<string> {
    if sessions == [] then {}
    else
      var rest, s := SeenFor(key, sessions[..|sessions| - 1]), sessions[|sessions| - 1];
      if s.key == key then rest + IdsOf(s.polls) else rest
  }

  /** A key's ledger is what it started with plus what its own watches saw; other keys' watches leave it alone. */
  lemma {:induction false} LedgersAreSeparate(entries: Ledgers, sessions: seq<Session>, key: string)
    ensures LedgerFor(StoreAfter(entries, sessions), key) == LedgerFor(entries, key) + SeenFor(key, sessions)
  {
    if sessions != [] {
      LedgersAreSeparate(entries, sessions[..|sessions| - 1], key);
    }
  }

  /** A watch reports when an observation settles it; it reports an id twice when one poll showed it twice as new. */
  ghost predicate ReportsEachOnce(seen: set<string>, polls: seq<Poll>) {
    polls != [] && polls[|polls| - 1].Observed? ==> DistinctNews(seen, polls)
  }

  lemma ReportIsNew(policy: WatchPolicy, seen: set<string>, polls: seq<Poll>, outcome: Outcome)
    requires Settles(policy, seen, polls, outcome)
    ensures Ids(Reported(outcome)) <= IdsOf(polls) - seen
    ensures DistinctIds(Reported(outcome)) <==> ReportsEachOnce(seen, polls)
  {
    ObservedReports(policy, seen, polls, outcome);
    NewsIds(seen, polls);
    NewsDistinctIff(seen, polls);
  }

  /** Every watch of the pull request reports each of its ids once. */
  ghost predicate AllReportOnce(entries: Ledgers, sessions: seq<Session>, key: string) {
    forall i :: 0 <= i < |sessions| && sessions[i].key == key
      ==> ReportsEachOnce(LedgerFor(StoreAfter(entries, sessions[..i]), key), sessions[i].polls)
  }

  lemma AllReportOnceSnoc(entries: Ledgers, rest: seq<Session>, s: Session, key: string)
    ensures AllReportOnce(entries, rest + [s], key)
            <==> (&& AllReportOnce(entries, rest, key)
                  && (s.key == key ==> ReportsEachOnce(LedgerFor(StoreAfter(entries, rest), key), s.polls)))
  {
    var all := rest + [s];
    assert all[|rest|] == s && all[..|rest|] == rest;
    assert forall i :: 0 <= i < |rest| ==> all[i] == rest[i] && all[..i] == rest[..i];
  }

  /**
   * Across any chain of watches no id is reported twice for the same pull request, if and only if no
   * watch that reports saw one poll repeat an id that was new.
   */
  lemma {:induction false} NothingReportedTwice(entries: Ledgers, sessions: seq<Session>, key: string)
    requires Completed(entries, sessions)
    ensures DistinctIds(ReportedFor(key, sessions)) <==> AllReportOnce(entries, sessions, key)
    ensures Ids(ReportedFor(key, sessions)) <= SeenFor(key, sessions) - LedgerFor(entries, key)
  {
    if sessions != [] {
      var rest, s := sessions[..|sessions| - 1], sessions[|sessions| - 1];
      assert sessions == rest + [s];
      CompletedBefore(entries, rest, s);
      NothingReportedTwice(entries, rest, key);
      NothingTwiceStep(entries, rest, s, key);
    }
  }

  lemma CompletedBefore(entries: Ledgers, rest: seq<Session>, s: Session)
    requires Completed(entries, rest + [s])
    ensures Completed(entries, rest)
  {
    var all := rest + [s];
    forall i | 0 <= i < |rest|
      ensures CompletedAt(entries, rest, i)
    {
      assert CompletedAt(entries, all, i) && all[..i] == rest[..i] && all[i] == rest[i];
    }
  }

  lemma NothingTwiceStep(entries: Ledgers, rest: seq<Session>, s: Session, key: string)
    requires Completed(entries, rest + [s])
    requires DistinctIds(ReportedFor(key, rest)) <==> AllReportOnce(entries, rest, key)
    requires Ids(ReportedFor(key, rest)) <= SeenFor(key, rest) - LedgerFor(entries, key)
    ensures DistinctIds(ReportedFor(key, rest + [s])) <==> AllReportOnce(entries, rest + [s], key)
    ensures Ids(ReportedFor(key, rest + [s])) <= SeenFor(key, rest + [s]) - LedgerFor(entries, key)
  {
    AllReportOnceSnoc(entries, rest, s, key);
    KeySnoc(key, rest, s);
    if s.key == key {
      assert CompletedAt(entries, rest + [s], |rest|);
      ReportStep(entries, rest, s);
    }
  }

  lemma KeySnoc(key: string, rest: seq<Session>, s: Session)
    ensures ReportedFor(key, rest + [s])
            == if s.key == key then ReportedFor(key, rest) + Reported(s.outcome) else ReportedFor(key, rest)
    ensures SeenFor(key, rest + [s])
            == if s.key == key then SeenFor(key, rest) + IdsOf(s.polls) else SeenFor(key, rest)
  {
    assert (rest + [s])[..|rest|] == rest;
  }

  lemma ReportStep(entries: Ledgers, rest: seq<Session>, s: Session)
    requires CompletedAt(entries, rest + [s], |rest|)
    requires Ids(ReportedFor(s.key, rest)) <= SeenFor(s.key, rest) - LedgerFor(entries, s.key)
    ensures var reported := ReportedFor(s.key, rest) + Reported(s.outcome);
            && (DistinctIds(reported)
                <==> DistinctIds(ReportedFor(s.key, rest))
                     && ReportsEachOnce(LedgerFor(StoreAfter(entries, rest), s.key), s.polls))
            && Ids(reported) <= SeenFor(s.key, rest) + IdsOf(s.polls) - LedgerFor(entries, s.key)
  {
    assert (rest + [s])[..|rest|] == rest && (rest + [s])[|rest|] == s;
    LedgersAreSeparate(entries, rest, s.key);
    ReportIsNew(s.policy, LedgerFor(StoreAfter(entries, rest), s.key), s.polls, s.outcome);
    IdsConcat(ReportedFor(s.key, rest), Reported(s.outcome));
    DistinctConcat(ReportedFor(s.key, rest), Reported(s.outcome));
  }

  /**
   * What a watch has entered in the ledger without reporting - the batch pending when it gave up -
   * no later watch of the same pull request reports either.
   */
  lemma LostItemsStayLost(entries: Ledgers, sessions: seq<Session>, i: nat, j: nat)
    requires Completed(entries, sessions)
    requires i < j < |sessions| && sessions[i].key == sessions[j].key
    ensures Ids(Reported(sessions[j].outcome)) !! IdsOf(sessions[i].polls)
  {
    assert CompletedAt(entries, sessions, j);
    NextReportMisses(entries, sessions[..j], sessions[j], i);
  }

  lemma NextReportMisses(entries: Ledgers, rest: seq<Session>, s: Session, i: nat)
    requires Settles(s.policy, LedgerFor(StoreAfter(entries, rest), s.key), s.polls, s.outcome)
    requires i < |rest| && rest[i].key == s.key
    ensures Ids(Reported(s.outcome)) !! IdsOf(rest[i].polls)
  {
    LedgersAreSeparate(entries, rest, s.key);
    SeenContains(rest, i);
    ReportIsNew(s.policy, LedgerFor(StoreAfter(entries, rest), s.key), s.polls, s.outcome);
  }

  lemma {:induction false} SeenContains(sessions: seq<Session>, i: nat)
    requires i < |sessions|
    ensures IdsOf(sessions[i].polls) <= SeenFor(sessions[i].key, sessions)
    decreases |sessions|
  {
    if i < |sessions| - 1 {
      SeenContains(sessions[..|sessions| - 1], i);
    }
  }
}
