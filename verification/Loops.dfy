/**
 * The two guards against writing the same bytes forever: the in-session one
 * (core/agent/src/budget.rs) and the persisted one (bin/cli/src/hook.rs).
 */
module Loops {
  import opened Wrappers
  import opened RunLength
  import opened Widths

  const LOOP_TRIP_THRESHOLD: nat := 3

  datatype Write = Write(path: string, content: string)

  // ---------------------------------------------------------------------------
  // The in-session guard
  // ---------------------------------------------------------------------------

  datatype RepeatState = RepeatState(last: Option<Write>, streak: nat)

  function RepeatStep(s: RepeatState, w: Write): RepeatState {
    if s.last == Some(w) then RepeatState(s.last, if s.streak < U32_MAX then s.streak + 1 else U32_MAX)
    else RepeatState(Some(w), 1)
  }

  class RepeatGuard {
    var last: Option<Write>
    var streak: nat

    constructor ()
      ensures RepeatState(last, streak) == RepeatState(None, 0)
    {
      last, streak := None, 0;
    }

    method Record(path: string, content: string) returns (tripped: bool)
      modifies this
      ensures RepeatState(last, streak) == RepeatStep(old(RepeatState(last, streak)), Write(path, content))
      ensures tripped == (streak >= LOOP_TRIP_THRESHOLD)
    {
      var signature := Write(path, content);
      if last == Some(signature) {
        streak := if streak < U32_MAX then streak + 1 else U32_MAX;
      } else {
        last, streak := Some(signature), 1;
      }
      return streak >= LOOP_TRIP_THRESHOLD;
    }
  }

  // ---------------------------------------------------------------------------
  // The persisted guard
  // ---------------------------------------------------------------------------

  datatype LoopState = LoopState(signature: Option<string>, count: nat)

  /** Paths and contents are only ever compared through their hash. */
  type Hasher = (string, string) -> string

  function LoopStep(hash: Hasher, s: LoopState, w: Write): LoopState {
    var signature := hash(w.path, w.content);
    LoopState(Some(signature), if s.signature == Some(signature) then s.count + 1 else 1)
  }

  // ---------------------------------------------------------------------------
  // Streaks are run lengths
  // ---------------------------------------------------------------------------

  function RepeatAfter(writes: seq<Write>): RepeatState {
    if writes == [] then RepeatState(None, 0)
    else RepeatStep(RepeatAfter(writes[..|writes| - 1]), writes[|writes| - 1])
  }

  function LoopAfter(hash: Hasher, writes: seq<Write>): LoopState {
    if writes == [] then LoopState(None, 0)
    else LoopStep(hash, LoopAfter(hash, writes[..|writes| - 1]), writes[|writes| - 1])
  }

  function SameAsLast<T(==)>(xs: seq<T>): seq<bool> {
    seq(|xs|, i requires 0 <= i < |xs| => xs[i] == xs[|xs| - 1])
  }

  /** Length of the run of equal elements at the end. */
  function Repeats<T(==)>(xs: seq<T>): nat {
    SuffixRun(SameAsLast(xs))
  }

  lemma RepeatsSnoc<T>(xs: seq<T>, x: T)
    ensures Repeats(xs + [x]) == if xs != [] && xs[|xs| - 1] == x then Repeats(xs) + 1 else 1
  {
    var flags := SameAsLast(xs + [x]);
    assert flags[|xs|];
    if xs != [] && xs[|xs| - 1] == x {
      assert flags[..|xs|] == SameAsLast(xs);
    } else if xs != [] {
      assert !flags[|xs| - 1];
      SuffixRunUnique(flags, 1);
    } else {
      SuffixRunUnique(flags, 1);
    }
  }

  function Signatures(hash: Hasher, writes: seq<Write>): seq<string> {
    seq(|writes|, i requires 0 <= i < |writes| => hash(writes[i].path, writes[i].content))
  }

  /** The in-session streak is the run of identical writes, up to saturation. */
  lemma {:induction false} RepeatStreakIsRunLength(writes: seq<Write>)
    ensures var s := RepeatAfter(writes);
            && s.last == (if writes == [] then None else Some(writes[|writes| - 1]))
            && s.streak == if Repeats(writes) < U32_MAX then Repeats(writes) else U32_MAX
  {
    if writes != [] {
      var rest, last := writes[..|writes| - 1], writes[|writes| - 1];
      assert writes == rest + [last];
      RepeatStreakIsRunLength(rest);
      RepeatsSnoc(rest, last);
    }
  }

  /** The persisted streak is the run of identical signatures. */
  lemma {:induction false} LoopCountIsRunLength(hash: Hasher, writes: seq<Write>)
    ensures var s := LoopAfter(hash, writes);
            && s.signature == (if writes == [] then None
                               else Some(hash(writes[|writes| - 1].path, writes[|writes| - 1].content)))
            && s.count == Repeats(Signatures(hash, writes))
  {
    if writes != [] {
      var rest, last := writes[..|writes| - 1], writes[|writes| - 1];
      assert Signatures(hash, writes) == Signatures(hash, rest) + [hash(last.path, last.content)];
      LoopCountIsRunLength(hash, rest);
      RepeatsSnoc(Signatures(hash, rest), hash(last.path, last.content));
    }
  }

  predicate LastThreeEqual<T(==)>(xs: seq<T>) {
    |xs| >= 3 && xs[|xs| - 1] == xs[|xs| - 2] == xs[|xs| - 3]
  }

  lemma ThreeRepeatsIff<T>(xs: seq<T>)
    ensures Repeats(xs) >= 3 <==> LastThreeEqual(xs)
  {
    var flags, n := SameAsLast(xs), Repeats(xs);
    assert n >= 3 ==> flags[|xs| - 2] && flags[|xs| - 3];
    assert LastThreeEqual(xs) ==> flags[|xs| - 1] && flags[|xs| - 2] && flags[|xs| - 3];
  }

  /** Both alarms go off exactly when the last three writes, or their signatures, are the same. */
  lemma AlarmIff(hash: Hasher, writes: seq<Write>)
    ensures RepeatAfter(writes).streak >= LOOP_TRIP_THRESHOLD <==> LastThreeEqual(writes)
    ensures LoopAfter(hash, writes).count >= LOOP_TRIP_THRESHOLD <==> LastThreeEqual(Signatures(hash, writes))
  {
    RepeatStreakIsRunLength(writes);
    LoopCountIsRunLength(hash, writes);
    ThreeRepeatsIff(writes);
    ThreeRepeatsIff(Signatures(hash, writes));
  }

  /** No two different writes in a row share a signature. */
  predicate NoCollision(hash: Hasher, writes: seq<Write>) {
    forall i {:trigger writes[i]} :: 0 < i < |writes| && writes[i - 1] != writes[i]
      ==> hash(writes[i - 1].path, writes[i - 1].content) != hash(writes[i].path, writes[i].content)
  }

  lemma {:induction false} GuardsAgree(hash: Hasher, writes: seq<Write>)
    requires |writes| <= U32_MAX && NoCollision(hash, writes)
    ensures LoopAfter(hash, writes).count == RepeatAfter(writes).streak <= |writes|
  {
    if writes != [] {
      var rest, last := writes[..|writes| - 1], writes[|writes| - 1];
      GuardsAgree(hash, rest);
      RepeatStreakIsRunLength(rest);
      LoopCountIsRunLength(hash, rest);
    }
  }

  /**
   * Fed the same writes, the two guards count alike after every one of them if and only if no two
   * different neighbours collide; then they trip on the same writes.
   */
  lemma GuardsAgreeIff(hash: Hasher, writes: seq<Write>)
    requires |writes| <= U32_MAX
    ensures (forall n :: 0 <= n <= |writes| ==> LoopAfter(hash, writes[..n]).count == RepeatAfter(writes[..n]).streak)
            <==> NoCollision(hash, writes)
  {
    if NoCollision(hash, writes) {
      forall n | 0 <= n <= |writes|
        ensures LoopAfter(hash, writes[..n]).count == RepeatAfter(writes[..n]).streak
      {
        GuardsAgree(hash, writes[..n]);
      }
    } else {
      var i :| 0 < i < |writes| && writes[i - 1] != writes[i]
        && hash(writes[i - 1].path, writes[i - 1].content) == hash(writes[i].path, writes[i].content);
      CollisionShows(hash, writes[..i], writes[i]);
      assert writes[..i + 1] == writes[..i] + [writes[i]];
      assert LoopAfter(hash, writes[..i + 1]).count != RepeatAfter(writes[..i + 1]).streak;
    }
  }

  /** A colliding neighbour goes on counting in the persisted guard and restarts the other. */
  lemma CollisionShows(hash: Hasher, before: seq<Write>, w: Write)
    requires before != [] && before[|before| - 1] != w
    requires hash(before[|before| - 1].path, before[|before| - 1].content) == hash(w.path, w.content)
    ensures LoopAfter(hash, before + [w]).count >= 2 && RepeatAfter(before + [w]).streak == 1
  {
    assert (before + [w])[..|before|] == before;
    RepeatStreakIsRunLength(before);
    LoopCountIsRunLength(hash, before);
    RepeatsPositive(Signatures(hash, before));
  }

  lemma RepeatsPositive<T>(xs: seq<T>)
    requires xs != []
    ensures Repeats(xs) >= 1
  {
    assert SameAsLast(xs)[|xs| - 1];
  }
}
