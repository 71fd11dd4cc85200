/** Merging the guardrail's hooks into an agent's settings file (bin/cli/src/hook_install.rs). */
module HookInstall {
  import opened Wrappers

  /** A JSON value; the order of an object's keys is not modelled. */
  datatype Json =
    | Null
    | Bool(truth: bool)
    | Number(number: int)
    | Str(text: string)
    | Arr(items: seq<Json>)
    | Obj(fields: map<string, Json>)

  datatype Wiring = Wiring(event: string, matcher: string)

  const WRITES := "Edit|Write"

  const HOOK_MATCHERS: seq<Wiring> := [
    Wiring("PreToolUse", WRITES),
    Wiring("PostToolUse", WRITES),
    Wiring("PostToolUse", "Bash"),
    Wiring("Stop", "")]

  function Get(v: Json, key: string): Option<Json> {
    if v.Obj? && key in v.fields then Some(v.fields[key]) else None
  }

  /** The fields of an object; anything else is replaced by an empty one. */
  function FieldsOf(v: Option<Json>): map<string, Json> {
    if v.Some? && v.value.Obj? then v.value.fields else map[]
  }

  /** The items of an array; anything else is replaced by an empty one. */
  function ItemsOf(v: Option<Json>): seq<Json> {
    if v.Some? && v.value.Arr? then v.value.items else []
  }

  predicate RunsCommand(group: Json, command: string) {
    var hooks := ItemsOf(Get(group, "hooks"));
    exists i :: 0 <= i < |hooks| && Get(hooks[i], "command") == Some(Str(command))
  }

  predicate Serves(group: Json, matcher: string, command: string) {
    RunsCommand(group, command) && (matcher == WRITES || Get(group, "matcher") == Some(Str(matcher)))
  }

  predicate AlreadyInstalled(groups: seq<Json>, matcher: string, command: string) {
    exists i :: 0 <= i < |groups| && Serves(groups[i], matcher, command)
  }

  function HookGroup(matcher: string, command: string): Json {
    Obj(map[
      "matcher" := Str(matcher),
      "hooks" := Arr([Obj(map[
        "type" := Str("command"), "command" := Str(command), "timeout" := Number(30),
        "statusMessage" := Str("vord guardrail")])])])
  }

  function GroupsIn(hooks: map<string, Json>, event: string): seq<Json> {
    ItemsOf(Get(Obj(hooks), event))
  }

  /** The matcher groups a settings file wires to an event. */
  function Groups(settings: Json, event: string): seq<Json> {
    GroupsIn(FieldsOf(Get(settings, "hooks")), event)
  }

  // ---------------------------------------------------------------------------
  // The merge
  // ---------------------------------------------------------------------------

  datatype Merge = Merge(hooks: map<string, Json>, changed: bool)

  function Install(m: Merge, w: Wiring, command: string): Merge {
    var groups := GroupsIn(m.hooks, w.event);
    if AlreadyInstalled(groups, w.matcher, command) then m.(hooks := m.hooks[w.event := Arr(groups)])
    else Merge(m.hooks[w.event := Arr(groups + [HookGroup(w.matcher, command)])], true)
  }

  function InstallAll(m: Merge, wirings: seq<Wiring>, command: string): Merge {
    if wirings == [] then m
    else Install(InstallAll(m, wirings[..|wirings| - 1], command), wirings[|wirings| - 1], command)
  }

  function Start(settings: Json): Merge {
    Merge(FieldsOf(Get(settings, "hooks")), false)
  }

  function MergeOf(settings: Json, command: string): Merge {
    InstallAll(Start(settings), HOOK_MATCHERS, command)
  }

  function Merged(settings: Json, command: string): Json {
    Obj(FieldsOf(Some(settings))["hooks" := Obj(MergeOf(settings, command).hooks)])
  }

  function Changed(settings: Json, command: string): bool {
    MergeOf(settings, command).changed
  }

  lemma InstallAllSnoc(m: Merge, wirings: seq<Wiring>, i: nat, command: string)
    requires i < |wirings|
    ensures InstallAll(m, wirings[..i + 1], command)
            == Install(InstallAll(m, wirings[..i], command), wirings[i], command)
  {
    assert wirings[..i + 1][..i] == wirings[..i];
  }

  /** Making room for an event first and then adding to it is one update. */
  lemma InstallInPlace(m: Merge, w: Wiring, command: string)
    ensures var room := if w.event in m.hooks && m.hooks[w.event].Arr? then m.hooks else m.hooks[w.event := Arr([])];
            var groups := room[w.event].items;
            Install(m, w, command)
            == if AlreadyInstalled(groups, w.matcher, command) then m.(hooks := room)
               else Merge(room[w.event := Arr(groups + [HookGroup(w.matcher, command)])], true)
  {
    var groups := GroupsIn(m.hooks, w.event);
    if w.event in m.hooks && m.hooks[w.event].Arr? {
      assert m.hooks[w.event := Arr(groups)] == m.hooks;
    } else {
      assert m.hooks[w.event := Arr([])][w.event := Arr([HookGroup(w.matcher, command)])]
             == m.hooks[w.event := Arr([HookGroup(w.matcher, command)])];
      assert groups + [HookGroup(w.matcher, command)] == [HookGroup(w.matcher, command)];
    }
  }

  method MergeHooks(settings: Json, command: string) returns (merged: Json, changed: bool)
    ensures merged == Merged(settings, command) && changed == Changed(settings, command)
  {
    var root := if settings.Obj? then settings.fields else map[];
    if "hooks" !in root || !root["hooks"].Obj? {
      root := root["hooks" := Obj(map[])];
    }
    var hooks := root["hooks"].fields;
    assert hooks == Start(settings).hooks;
    changed := false;
    for i := 0 to |HOOK_MATCHERS|
      invariant Merge(hooks, changed)
                == InstallAll(Start(settings), HOOK_MATCHERS[..i], command)
    {
      var w := HOOK_MATCHERS[i];
      InstallAllSnoc(Start(settings), HOOK_MATCHERS, i, command);
      InstallInPlace(Merge(hooks, changed), w, command);
      if w.event !in hooks || !hooks[w.event].Arr? {
        hooks := hooks[w.event := Arr([])];
      }
      var groups := hooks[w.event].items;
      if AlreadyInstalled(groups, w.matcher, command) {
        continue;
      }
      hooks := hooks[w.event := Arr(groups + [HookGroup(w.matcher, command)])];
      changed := true;
    }
    assert HOOK_MATCHERS[..|HOOK_MATCHERS|] == HOOK_MATCHERS;
    merged := Obj(root["hooks" := Obj(hooks)]);
    assert root["hooks" := Obj(hooks)] == FieldsOf(Some(settings))["hooks" := Obj(hooks)];
  }

  // ---------------------------------------------------------------------------
  // What the merge adds, told from the settings alone
  // ---------------------------------------------------------------------------

  predicate Lacks(settings: Json, w: Wiring, command: string) {
    !AlreadyInstalled(Groups(settings, w.event), w.matcher, command)
  }

  /** The groups the settings lack for an event, in the order of the table. */
  function Missing(settings: Json, event: string, wirings: seq<Wiring>, command: string): seq<Json> {
    if wirings == [] then []
    else
      var rest, w := Missing(settings, event, wirings[..|wirings| - 1], command), wirings[|wirings| - 1];
      if w.event == event && Lacks(settings, w, command) then rest + [HookGroup(w.matcher, command)] else rest
  }

  lemma HookGroupRuns(matcher: string, command: string)
    ensures RunsCommand(HookGroup(matcher, command), command)
    ensures forall other :: Serves(HookGroup(matcher, command), other, command) <==> other in {WRITES, matcher}
  {
    var hooks := ItemsOf(Get(HookGroup(matcher, command), "hooks"));
    assert Get(hooks[0], "command") == Some(Str(command));
    forall other
      ensures Get(HookGroup(matcher, command), "matcher") == Some(Str(other)) <==> other == matcher
    {
      assert Str(other) == Str(matcher) ==> other == matcher;
    }
  }

  lemma InstalledConcat(a: seq<Json>, b: seq<Json>, matcher: string, command: string)
    ensures AlreadyInstalled(a + b, matcher, command)
            <==> AlreadyInstalled(a, matcher, command) || AlreadyInstalled(b, matcher, command)
  {
    if AlreadyInstalled(a, matcher, command) {
      var i :| 0 <= i < |a| && Serves(a[i], matcher, command);
      assert (a + b)[i] == a[i];
    }
    if AlreadyInstalled(b, matcher, command) {
      var i :| 0 <= i < |b| && Serves(b[i], matcher, command);
      assert (a + b)[|a| + i] == b[i];
    }
  }

  predicate Adds(settings: Json, w: Wiring, event: string, command: string) {
    w.event == event && Lacks(settings, w, command)
  }

  /** The added groups serve a matcher exactly when one of the wirings behind them does. */
  lemma {:induction false} MissingServes(
    settings: Json, event: string, wirings: seq<Wiring>, matcher: string, command: string)
    ensures AlreadyInstalled(Missing(settings, event, wirings, command), matcher, command)
            <==>
            exists i :: 0 <= i < |wirings| && Adds(settings, wirings[i], event, command)
                        && matcher in {WRITES, wirings[i].matcher}
  {
    if wirings != [] {
      var n := |wirings| - 1;
      var rest, w := wirings[..n], wirings[n];
      MissingServes(settings, event, rest, matcher, command);
      if Adds(settings, w, event, command) {
        InstalledConcat(Missing(settings, event, rest, command), [HookGroup(w.matcher, command)], matcher, command);
        HookGroupRuns(w.matcher, command);
        assert [HookGroup(w.matcher, command)][0] == HookGroup(w.matcher, command);
      }
      assert forall i :: 0 <= i < n ==> rest[i] == wirings[i];
    }
  }

  /** No wiring is served by what an earlier one for the same event adds. */
  predicate Independent(wirings: seq<Wiring>) {
    forall i, j :: 0 <= i < j < |wirings| && wirings[i].event == wirings[j].event
      ==> wirings[j].matcher !in {WRITES, wirings[i].matcher}
  }

  lemma TableIsIndependent()
    ensures Independent(HOOK_MATCHERS)
  {
    assert "Bash" != WRITES && "PreToolUse"[1] != "PostToolUse"[1] && "Stop"[0] != "PostToolUse"[0];
    assert |"PreToolUse"| != |"PostToolUse"| && |"Stop"| == 4;
  }

  predicate Mentions(wirings: seq<Wiring>, event: string) {
    exists i :: 0 <= i < |wirings| && wirings[i].event == event
  }

  predicate LacksAny(settings: Json, wirings: seq<Wiring>, command: string) {
    exists i :: 0 <= i < |wirings| && Lacks(settings, wirings[i], command)
  }

  predicate FollowsAt(settings: Json, m: Merge, wirings: seq<Wiring>, command: string, event: string) {
    && GroupsIn(m.hooks, event) == Groups(settings, event) + Missing(settings, event, wirings, command)
    && (!Mentions(wirings, event) ==> Get(Obj(m.hooks), event) == Get(Obj(Start(settings).hooks), event))
  }

  /** The merge has added what the settings lacked of `wirings`, and nothing else. */
  ghost predicate Follows(settings: Json, m: Merge, wirings: seq<Wiring>, command: string) {
    && (forall event :: FollowsAt(settings, m, wirings, command, event))
    && (m.changed <==> LacksAny(settings, wirings, command))
  }

  lemma MentionsSnoc(rest: seq<Wiring>, w: Wiring, event: string)
    ensures Mentions(rest + [w], event) <==> Mentions(rest, event) || w.event == event
  {
    var all := rest + [w];
    assert all[|rest|] == w && forall i :: 0 <= i < |rest| ==> all[i] == rest[i];
  }

  lemma LacksAnySnoc(settings: Json, rest: seq<Wiring>, w: Wiring, command: string)
    ensures LacksAny(settings, rest + [w], command)
            <==> LacksAny(settings, rest, command) || Lacks(settings, w, command)
  {
    var all := rest + [w];
    assert all[|rest|] == w && forall i :: 0 <= i < |rest| ==> all[i] == rest[i];
  }

  /** A wiring is served while the merge runs exactly when the settings it started from served it. */
  lemma LacksStill(settings: Json, m: Merge, rest: seq<Wiring>, w: Wiring, command: string)
    requires FollowsAt(settings, m, rest, command, w.event) && Independent(rest + [w])
    ensures AlreadyInstalled(GroupsIn(m.hooks, w.event), w.matcher, command) <==> !Lacks(settings, w, command)
  {
    InstalledConcat(Groups(settings, w.event), Missing(settings, w.event, rest, command), w.matcher, command);
    MissingServes(settings, w.event, rest, w.matcher, command);
    forall i | 0 <= i < |rest| && rest[i].event == w.event
      ensures w.matcher !in {WRITES, rest[i].matcher}
    {
      assert (rest + [w])[i] == rest[i] && (rest + [w])[|rest|] == w;
    }
  }

  lemma InstallAt(m: Merge, w: Wiring, command: string, event: string)
    ensures GroupsIn(Install(m, w, command).hooks, event)
            == if event == w.event && !AlreadyInstalled(GroupsIn(m.hooks, event), w.matcher, command)
               then GroupsIn(m.hooks, event) + [HookGroup(w.matcher, command)]
               else GroupsIn(m.hooks, event)
    ensures event != w.event ==> Get(Obj(Install(m, w, command).hooks), event) == Get(Obj(m.hooks), event)
  {
  }

  lemma MissingSnoc(settings: Json, event: string, rest: seq<Wiring>, w: Wiring, command: string)
    ensures Missing(settings, event, rest + [w], command)
            == if w.event == event && Lacks(settings, w, command)
               then Missing(settings, event, rest, command) + [HookGroup(w.matcher, command)]
               else Missing(settings, event, rest, command)
  {
    assert (rest + [w])[..|rest|] == rest;
  }

  lemma InstallFollowsAt(settings: Json, m: Merge, rest: seq<Wiring>, w: Wiring, command: string, event: string)
    requires FollowsAt(settings, m, rest, command, w.event) && FollowsAt(settings, m, rest, command, event)
    requires Independent(rest + [w])
    ensures FollowsAt(settings, Install(m, w, command), rest + [w], command, event)
  {
    if event == w.event {
      LacksStill(settings, m, rest, w, command);
    }
    MissingSnoc(settings, event, rest, w, command);
    InstallAt(m, w, command, event);
    MentionsSnoc(rest, w, event);
  }

  lemma InstallFollows(settings: Json, m: Merge, rest: seq<Wiring>, w: Wiring, command: string)
    requires Follows(settings, m, rest, command) && Independent(rest + [w])
    ensures Follows(settings, Install(m, w, command), rest + [w], command)
  {
    LacksStill(settings, m, rest, w, command);
    LacksAnySnoc(settings, rest, w, command);
    forall event
      ensures FollowsAt(settings, Install(m, w, command), rest + [w], command, event)
    {
      InstallFollowsAt(settings, m, rest, w, command, event);
    }
  }

  lemma {:induction false} InstallAllFollows(settings: Json, wirings: seq<Wiring>, command: string)
    requires Independent(wirings)
    ensures Follows(settings, InstallAll(Start(settings), wirings, command), wirings, command)
  {
    if wirings != [] {
      var n := |wirings| - 1;
      var rest, w := wirings[..n], wirings[n];
      assert wirings == rest + [w];
      InstallAllFollows(settings, rest, command);
      InstallFollows(settings, InstallAll(Start(settings), rest, command), rest, w, command);
    }
  }

  // ---------------------------------------------------------------------------
  // The promises of the merge
  // ---------------------------------------------------------------------------

  predicate FullyInstalled(settings: Json, command: string) {
    !LacksAny(settings, HOOK_MATCHERS, command)
  }

  lemma MergeFollows(settings: Json, command: string, event: string)
    ensures FollowsAt(settings, MergeOf(settings, command), HOOK_MATCHERS, command, event)
    ensures Changed(settings, command) <==> LacksAny(settings, HOOK_MATCHERS, command)
  {
    TableIsIndependent();
    InstallAllFollows(settings, HOOK_MATCHERS, command);
  }

  /** Every event keeps its groups, in front of exactly the groups the settings lacked. */
  lemma MergeAppendsMissing(settings: Json, command: string, event: string)
    ensures Groups(Merged(settings, command), event)
            == Groups(settings, event) + Missing(settings, event, HOOK_MATCHERS, command)
  {
    MergeFollows(settings, command, event);
  }

  /** Keys other than "hooks", and events the guardrail does not use, are left as they were. */
  lemma MergeKeepsTheRest(settings: Json, command: string, key: string)
    ensures key != "hooks" ==> Get(Merged(settings, command), key) == Get(settings, key)
    ensures !Mentions(HOOK_MATCHERS, key)
            ==> Get(Get(Merged(settings, command), "hooks").value, key)
                == Get(Obj(FieldsOf(Get(settings, "hooks"))), key)
  {
    MergeFollows(settings, command, key);
  }

  lemma MergeInstallsEverything(settings: Json, command: string)
    ensures FullyInstalled(Merged(settings, command), command)
  {
    forall i | 0 <= i < |HOOK_MATCHERS|
      ensures !Lacks(Merged(settings, command), HOOK_MATCHERS[i], command)
    {
      var w := HOOK_MATCHERS[i];
      MergeAppendsMissing(settings, command, w.event);
      MissingServes(settings, w.event, HOOK_MATCHERS, w.matcher, command);
      InstalledConcat(
        Groups(settings, w.event), Missing(settings, w.event, HOOK_MATCHERS, command), w.matcher, command);
      assert Lacks(settings, w, command) ==> Adds(settings, HOOK_MATCHERS[i], w.event, command);
    }
  }

  lemma {:induction false} NothingMissing(settings: Json, event: string, wirings: seq<Wiring>, command: string)
    requires forall i :: 0 <= i < |wirings| ==> !Lacks(settings, wirings[i], command)
    ensures Missing(settings, event, wirings, command) == []
  {
    if wirings != [] {
      NothingMissing(settings, event, wirings[..|wirings| - 1], command);
    }
  }

  lemma NothingChangesAt(settings: Json, command: string, event: string)
    requires FullyInstalled(settings, command)
    ensures Get(Obj(MergeOf(settings, command).hooks), event) == Get(Obj(Start(settings).hooks), event)
  {
    MergeFollows(settings, command, event);
    NothingMissing(settings, event, HOOK_MATCHERS, command);
    if Mentions(HOOK_MATCHERS, event) {
      var i :| 0 <= i < |HOOK_MATCHERS| && HOOK_MATCHERS[i].event == event;
      assert !Lacks(settings, HOOK_MATCHERS[i], command);
      assert Groups(settings, event) + [] == Groups(settings, event);
      SameItems(MergeOf(settings, command).hooks, Start(settings).hooks, event);
    }
  }

  lemma SameItems(a: map<string, Json>, b: map<string, Json>, event: string)
    requires GroupsIn(a, event) == GroupsIn(b, event) != []
    ensures Get(Obj(a), event) == Get(Obj(b), event)
  {
    assert a[event] == Arr(GroupsIn(a, event)) && b[event] == Arr(GroupsIn(b, event));
  }

  /** Settings that have everything come back as they are. */
  lemma FullyInstalledIsFixed(settings: Json, command: string)
    requires FullyInstalled(settings, command)
    ensures Merged(settings, command) == settings
  {
    var before, after := Start(settings).hooks, MergeOf(settings, command).hooks;
    forall event
      ensures Get(Obj(after), event) == Get(Obj(before), event)
    {
      NothingChangesAt(settings, command, event);
    }
    SameGetsSameFields(after, before);
    assert !Lacks(settings, HOOK_MATCHERS[0], command);
    assert settings.Obj? && Get(settings, "hooks") == Some(Obj(before));
    assert settings.fields["hooks" := Obj(after)] == settings.fields;
  }

  lemma SameGetsSameFields(a: map<string, Json>, b: map<string, Json>)
    requires forall key :: Get(Obj(a), key) == Get(Obj(b), key)
    ensures a == b
  {
    forall key
      ensures key in a <==> key in b
      ensures key in a && key in b ==> a[key] == b[key]
    {
      assert Get(Obj(a), key) == Get(Obj(b), key);
    }
  }

  /** The flag is raised exactly when something was missing, and exactly when the settings differ. */
  lemma ChangedIff(settings: Json, command: string)
    ensures Changed(settings, command) <==> !FullyInstalled(settings, command)
    ensures Changed(settings, command) <==> Merged(settings, command) != settings
  {
    MergeFollows(settings, command, "");
    if FullyInstalled(settings, command) {
      FullyInstalledIsFixed(settings, command);
    } else {
      MergeInstallsEverything(settings, command);
    }
  }

  /** Merging again changes nothing and says so. */
  lemma MergeIsIdempotent(settings: Json, command: string)
    ensures Merged(Merged(settings, command), command) == Merged(settings, command)
    ensures !Changed(Merged(settings, command), command)
  {
    MergeInstallsEverything(settings, command);
    ChangedIff(Merged(settings, command), command);
  }

  /** What counts as installed, told as paths into the JSON. */
  predicate NamesCommand(hook: Json, command: string) {
    hook.Obj? && "command" in hook.fields && hook.fields["command"] == Str(command)
  }

  predicate GroupRuns(group: Json, command: string) {
    && group.Obj? && "hooks" in group.fields && group.fields["hooks"].Arr?
    && exists i :: 0 <= i < |group.fields["hooks"].items| && NamesCommand(group.fields["hooks"].items[i], command)
  }

  /** Any group with a hook that runs the command counts for writes; for another matcher it must also be the group's. */
  lemma InstalledIff(groups: seq<Json>, matcher: string, command: string)
    ensures AlreadyInstalled(groups, matcher, command)
            <==> exists i :: 0 <= i < |groups| && GroupRuns(groups[i], command)
                             && (matcher == "Edit|Write"
                                 || ("matcher" in groups[i].fields && groups[i].fields["matcher"] == Str(matcher)))
  {
    forall i | 0 <= i < |groups|
      ensures RunsCommand(groups[i], command) <==> GroupRuns(groups[i], command)
    {
      RunsIff(groups[i], command);
    }
  }

  lemma RunsIff(group: Json, command: string)
    ensures RunsCommand(group, command) <==> GroupRuns(group, command)
  {
    var hooks := ItemsOf(Get(group, "hooks"));
    forall i | 0 <= i < |hooks|
      ensures Get(hooks[i], "command") == Some(Str(command)) <==> NamesCommand(hooks[i], command)
    {
    }
  }

  /** The group that is added, key by key. */
  function ExpectedGroup(matcher: string, command: string): Json {
    Obj(map[
      "matcher" := Str(matcher),
      "hooks" := Arr([Obj(map[
        "statusMessage" := Str("vord guardrail"), "timeout" := Number(30), "command" := Str(command),
        "type" := Str("command")])])])
  }

  function ExpectedHooks(command: string): map<string, Json> {
    map[
      "PreToolUse" := Arr([ExpectedGroup("Edit|Write", command)]),
      "PostToolUse" := Arr([ExpectedGroup("Edit|Write", command), ExpectedGroup("Bash", command)]),
      "Stop" := Arr([ExpectedGroup("", command)])]
  }

  /** Into settings that are no object, or an empty one, the merge writes exactly these hooks. */
  lemma EmptySettingsMerge(settings: Json, command: string)
    requires settings.Obj? ==> settings.fields == map[]
    ensures Merged(settings, command) == Obj(map["hooks" := Obj(ExpectedHooks(command))])
    ensures Changed(settings, command)
  {
    var start := Start(settings);
    var m1 := Install(start, Wiring("PreToolUse", WRITES), command);
    var m2 := Install(m1, Wiring("PostToolUse", WRITES), command);
    var m3 := Install(m2, Wiring("PostToolUse", "Bash"), command);
    var m4 := Install(m3, Wiring("Stop", ""), command);
    FourSteps(start, command);
    FirstInto(start, Wiring("PreToolUse", WRITES), command);
    FirstInto(m1, Wiring("PostToolUse", WRITES), command);
    BashAfterWrites(m2, command);
    FirstInto(m3, Wiring("Stop", ""), command);
    InOrder(Arr([ExpectedGroup("Edit|Write", command)]),
            Arr([ExpectedGroup("Edit|Write", command), ExpectedGroup("Bash", command)]),
            Arr([ExpectedGroup("", command)]));
  }

  lemma InOrder(writes: Json, both: Json, stop: Json)
    ensures map["PreToolUse" := writes]["PostToolUse" := writes]["PostToolUse" := both]["Stop" := stop]
            == map["PreToolUse" := writes, "PostToolUse" := both, "Stop" := stop]
  {
  }

  lemma GroupIsExpected(matcher: string, command: string)
    ensures HookGroup(matcher, command) == ExpectedGroup(matcher, command)
  {
    assert map[
        "type" := Str("command"), "command" := Str(command), "timeout" := Number(30),
        "statusMessage" := Str("vord guardrail")]
      == map[
        "statusMessage" := Str("vord guardrail"), "timeout" := Number(30), "command" := Str(command),
        "type" := Str("command")];
  }

  lemma FourSteps(start: Merge, command: string)
    ensures InstallAll(start, HOOK_MATCHERS, command)
            == Install(Install(Install(Install(start, Wiring("PreToolUse", "Edit|Write"), command),
                                       Wiring("PostToolUse", "Edit|Write"), command),
                               Wiring("PostToolUse", "Bash"), command),
                       Wiring("Stop", ""), command)
  {
    assert HOOK_MATCHERS[..4] == HOOK_MATCHERS;
    InstallAllSnoc(start, HOOK_MATCHERS, 0, command);
    InstallAllSnoc(start, HOOK_MATCHERS, 1, command);
    InstallAllSnoc(start, HOOK_MATCHERS, 2, command);
    InstallAllSnoc(start, HOOK_MATCHERS, 3, command);
  }

  lemma FirstInto(m: Merge, w: Wiring, command: string)
    requires w.event !in m.hooks
    ensures Install(m, w, command) == Merge(m.hooks[w.event := Arr([ExpectedGroup(w.matcher, command)])], true)
  {
    GroupIsExpected(w.matcher, command);
    assert [] + [HookGroup(w.matcher, command)] == [ExpectedGroup(w.matcher, command)];
  }

  lemma BashAfterWrites(m: Merge, command: string)
    requires "PostToolUse" in m.hooks && m.hooks["PostToolUse"] == Arr([ExpectedGroup("Edit|Write", command)])
    ensures Install(m, Wiring("PostToolUse", "Bash"), command)
            == Merge(
              m.hooks[
                "PostToolUse" := Arr([ExpectedGroup("Edit|Write", command), ExpectedGroup("Bash", command)])], true)
  {
    var group := ExpectedGroup("Edit|Write", command);
    GroupIsExpected("Edit|Write", command);
    GroupIsExpected("Bash", command);
    HookGroupRuns("Edit|Write", command);
    assert "Bash" != "Edit|Write" by {
      assert |"Bash"| == 4;
    }
    assert !AlreadyInstalled([group], "Bash", command);
    assert [group] + [ExpectedGroup("Bash", command)] == [group, ExpectedGroup("Bash", command)];
  }

  // ---------------------------------------------------------------------------
  // What the loose check lets through
  // ---------------------------------------------------------------------------

  /** Some group for exactly this matcher runs the command. */
  predicate GroupFor(groups: seq<Json>, matcher: string, command: string) {
    exists i :: 0 <= i < |groups| && RunsCommand(groups[i], command) && Get(groups[i], "matcher") == Some(Str(matcher))
  }

  predicate AnyRuns(groups: seq<Json>, command: string) {
    exists i :: 0 <= i < |groups| && RunsCommand(groups[i], command)
  }

  /**
   * A merge leaves an `Edit|Write` group on an event it wires to one exactly when there was one
   * before or nothing on that event ran the command.
   */
  lemma WritesGuardedIff(settings: Json, command: string, event: string)
    requires event in {"PreToolUse", "PostToolUse"}
    ensures GroupFor(Groups(Merged(settings, command), event), WRITES, command)
            <==>
            GroupFor(Groups(settings, event), WRITES, command) || !AnyRuns(Groups(settings, event), command)
  {
    var k := if event == "PreToolUse" then 0 else 1;
    assert HOOK_MATCHERS[k] == Wiring(event, WRITES);
    var groups, added := Groups(settings, event), Missing(settings, event, HOOK_MATCHERS, command);
    MergeAppendsMissing(settings, command, event);
    GroupForConcat(groups, added, WRITES, command);
    MissingHas(settings, event, HOOK_MATCHERS, WRITES, command);
    assert AnyRuns(groups, command) <==> !Lacks(settings, HOOK_MATCHERS[k], command);
    assert Lacks(settings, HOOK_MATCHERS[k], command) ==> Adds(settings, HOOK_MATCHERS[k], event, command);
    assert forall i :: 0 <= i < |HOOK_MATCHERS| && HOOK_MATCHERS[i].matcher == WRITES && HOOK_MATCHERS[i].event == event
                       ==> HOOK_MATCHERS[i] == HOOK_MATCHERS[k];
  }

  lemma GroupForConcat(a: seq<Json>, b: seq<Json>, matcher: string, command: string)
    ensures GroupFor(a + b, matcher, command) <==> GroupFor(a, matcher, command) || GroupFor(b, matcher, command)
  {
    if GroupFor(a, matcher, command) {
      var i :| 0 <= i < |a| && RunsCommand(a[i], command) && Get(a[i], "matcher") == Some(Str(matcher));
      assert (a + b)[i] == a[i];
    }
    if GroupFor(b, matcher, command) {
      var i :| 0 <= i < |b| && RunsCommand(b[i], command) && Get(b[i], "matcher") == Some(Str(matcher));
      assert (a + b)[|a| + i] == b[i];
    }
  }

  lemma {:induction false} MissingHas(
    settings: Json, event: string, wirings: seq<Wiring>, matcher: string, command: string)
    ensures GroupFor(Missing(settings, event, wirings, command), matcher, command)
            <==>
            exists i :: 0 <= i < |wirings| && Adds(settings, wirings[i], event, command)
                        && wirings[i].matcher == matcher
  {
    if wirings != [] {
      var n := |wirings| - 1;
      var rest, w := wirings[..n], wirings[n];
      MissingHas(settings, event, rest, matcher, command);
      if Adds(settings, w, event, command) {
        var group := HookGroup(w.matcher, command);
        GroupForConcat(Missing(settings, event, rest, command), [group], matcher, command);
        HookGroupRuns(w.matcher, command);
        assert [group][0] == group;
        assert Get(group, "matcher") == Some(Str(w.matcher));
      }
      assert forall i :: 0 <= i < n ==> rest[i] == wirings[i];
    }
  }

  /** Settings in which a `Bash` hook alone keeps the merge from ever guarding writes after the fact. */
  lemma BashHookHidesWrites(command: string)
    ensures var settings := Obj(map["hooks" := Obj(map["PostToolUse" := Arr([HookGroup("Bash", command)])])]);
            !GroupFor(Groups(Merged(settings, command), "PostToolUse"), WRITES, command)
  {
    var settings := Obj(map["hooks" := Obj(map["PostToolUse" := Arr([HookGroup("Bash", command)])])]);
    var group := HookGroup("Bash", command);
    assert Groups(settings, "PostToolUse") == [group];
    HookGroupRuns("Bash", command);
    assert "Bash" != WRITES;
    assert Get(group, "matcher") == Some(Str("Bash"));
    assert AnyRuns([group], command) by {
      assert [group][0] == group;
    }
    WritesGuardedIff(settings, command, "PostToolUse");
  }
}
