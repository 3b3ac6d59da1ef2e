/** What every run of the event-group operations keeps. */
module EventInvariant {
  import opened PyText
  import opened EventModel

  // ---- The invariant ----

  /** Foreign keys of the schema, and: only an analysed asset gets a membership row. */
  ghost predicate AssetRows(t: Tables) {
    && t.analyses.Keys <= t.assets
    && t.members.Keys <= t.analyses.Keys
  }

  /** A membership names no event exactly when it was removed by hand; any other names an existing group. */
  ghost predicate MemberRows(t: Tables) {
    forall a :: a in t.members ==>
      && (t.members[a].event.None? <==> t.members[a].assignment == Removed)
      && (t.members[a].event.Some? ==> t.members[a].event.value in t.groups)
  }

  /** A group with an auto key has the id derived from it; one without has the id of a split. */
  ghost predicate GroupIds(groups: map<EventId, Group>) {
    forall e :: e in groups ==>
      if groups[e].autoKey.Some? then e == AutoEventId(groups[e].autoKey.value)
      else "manual-" <= e
  }

  /**
   Exactly the merged groups carry a merge link, to another existing group; only a split-off group is ever
   `reset`.
   */
  ghost predicate GroupLinks(groups: map<EventId, Group>) {
    forall e :: e in groups ==>
      && (groups[e].status == Reset ==> groups[e].autoKey.None?)
      && (groups[e].status == Merged <==> groups[e].source.mergedInto.Some?)
      && (groups[e].status == Merged ==> LinkOf(groups, e) in groups && LinkOf(groups, e) != e)
  }

  ghost function LinkOf(groups: map<EventId, Group>, e: EventId): EventId {
    if e in groups && groups[e].source.mergedInto.Some? then groups[e].source.mergedInto.value else e
  }

  ghost predicate Ranks(rank: EventId -> nat, groups: map<EventId, Group>) {
    forall e :: e in groups && groups[e].status == Merged ==> rank(LinkOf(groups, e)) < rank(e)
  }

  /** Merge links never form a cycle: some rank falls along each of them. */
  ghost predicate Acyclic(groups: map<EventId, Group>) {
    exists rank: EventId -> nat :: Ranks(rank, groups)
  }

  ghost predicate ValidGroups(groups: map<EventId, Group>) {
    GroupIds(groups) && GroupLinks(groups) && Acyclic(groups)
  }

  ghost predicate Valid(t: Tables) {
    AssetRows(t) && MemberRows(t) && GroupIds(t.groups) && GroupLinks(t.groups) && Acyclic(t.groups)
  }

  // ---- Groups: what each statement keeps ----

  lemma EnsureKeeps(groups: map<EventId, Group>, inp: EventInput, restore: bool)
    requires ValidGroups(groups)
    ensures var r := Ensure(groups, inp, restore);
            ValidGroups(r.groups) && groups.Keys <= r.groups.Keys && r.event in r.groups
  {
    var r := Ensure(groups, inp, restore);
    var id := AutoEventId(inp.autoKey);
    var rank: EventId -> nat :| Ranks(rank, groups);
    assert Ranks(rank, r.groups);
    if id in groups {
      AutoIsNotManual(inp.autoKey);
    }
  }

  lemma TouchKeeps(groups: map<EventId, Group>, e: EventId, title: string)
    requires ValidGroups(groups)
    requires e in groups && groups[e].status !in {Merged, Reset}
    ensures ValidGroups(groups[e := groups[e].(title := title, status := Manual)])
  {
    var rank: EventId -> nat :| Ranks(rank, groups);
    assert Ranks(rank, groups[e := groups[e].(title := title, status := Manual)]);
  }

  lemma MarkMergedKeeps(groups: map<EventId, Group>, target: EventId, sources: set<EventId>)
    requires ValidGroups(groups)
    requires target in groups && groups[target].status != Merged && target !in sources
    requires forall s :: s in sources ==> s in groups && groups[s].status !in {Merged, Reset}
    ensures ValidGroups(MarkMerged(groups, target, sources))
  {
    var rank: EventId -> nat :| Ranks(rank, groups);
    var g' := MarkMerged(groups, target, sources);
    // The target keeps no link of its own, so it can rank below everything.
    var rank': EventId -> nat := e => if e == target then 0 else rank(e) + 1;
    forall e | e in g' && g'[e].status == Merged
      ensures rank'(LinkOf(g', e)) < rank'(e)
    {
      if e !in sources { assert groups[e].status == Merged && LinkOf(g', e) == LinkOf(groups, e); }
    }
    assert Ranks(rank', g');
  }

  // ---- Operations ----

  lemma SyncKeeps(t: Tables, asset: AssetId, analysis: Analysis, preserve: bool)
    requires Valid(t) && asset in t.analyses
    ensures Valid(Sync(t, asset, analysis, preserve))
    ensures t.groups.Keys <= Sync(t, asset, analysis, preserve).groups.Keys
  {
    if InputOf(analysis).Some? {
      EnsureKeeps(t.groups, InputOf(analysis).value, !preserve);
    }
  }

  /** A group without auto key is out of reach of the reset loop. */
  lemma ResetOneSpares(t: Tables, asset: AssetId, e: EventId)
    requires Valid(t) && e in t.groups && t.groups[e].autoKey.None?
    ensures e in ResetOne(t, asset).groups && ResetOne(t, asset).groups[e] == t.groups[e]
  {
    if asset in t.analyses && InputOf(t.analyses[asset]).Some? {
      AutoIsNotManual(InputOf(t.analyses[asset]).value.autoKey);
    }
  }

  lemma {:induction false} ResetAllKeeps(t: Tables, assets: seq<AssetId>)
    requires Valid(t)
    ensures Valid(ResetAll(t, assets)) && t.groups.Keys <= ResetAll(t, assets).groups.Keys
    ensures forall e :: e in t.groups && t.groups[e].autoKey.None? ==>
              ResetAll(t, assets).groups[e] == t.groups[e]
    decreases |assets|
  {
    if assets != [] {
      var t1 := ResetOne(t, assets[0]);
      if assets[0] in t.analyses { SyncKeeps(t, assets[0], t.analyses[assets[0]], false); }
      ResetAllKeeps(t1, assets[1..]);
      forall e | e in t.groups && t.groups[e].autoKey.None?
        ensures ResetAll(t, assets).groups[e] == t.groups[e]
      {
        ResetOneSpares(t, assets[0], e);
      }
    }
  }

  lemma MergeKeeps(t: Tables, target: EventId, sources: seq<string>)
    requires Valid(t)
    ensures Valid(Merge(t, target, sources).tables)
  {
    var clean := MergeSources(target, sources);
    if Visible(t, target) && clean != {} && !exists s :: s in clean && !Visible(t, s) {
      TouchKeeps(t.groups, target, t.groups[target].title);
      MarkMergedKeeps(t.groups[target := t.groups[target].(status := Manual)], target, clean);
    }
  }

  lemma SplitTablesKeeps(t: Tables, e: EventId, chosen: set<AssetId>, title: string, newId: EventId)
    requires Valid(t) && newId !in t.groups && "manual-" <= newId
    ensures Valid(SplitTables(t, e, chosen, title, newId))
  {
    var rank: EventId -> nat :| Ranks(rank, t.groups);
    assert Ranks(rank, SplitTables(t, e, chosen, title, newId).groups);
  }

  lemma ApplyKeeps(t: Tables, op: Op)
    requires Valid(t)
    ensures Valid(Apply(t, op))
  {
    match op
    case OpUpsertAsset(_) =>
    case OpIngest(a, an) =>
      if a in t.assets { SyncKeeps(t.(analyses := t.analyses[a := an]), a, an, true); }
    case OpRename(e, title) =>
      if Visible(t, e) && NormalizeTitle(title).Some? { TouchKeeps(t.groups, e, NormalizeTitle(title).value); }
    case OpMerge(e, ss) => MergeKeeps(t, e, ss);
    case OpSplit(e, aa, title, draw) =>
      if ManualEventId(draw) !in t.groups && NormalizeTitle(title).Some? {
        SplitTablesKeeps(t, e, CleanIds(aa), NormalizeTitle(title).value, ManualEventId(draw));
      }
    case OpRemove(_, _) =>
    case OpReset(e, order) =>
      ResetAllKeeps(t, order);
      if Visible(t, e) && t.groups[e].autoKey.None? {
        var rank: EventId -> nat :| Ranks(rank, ResetAll(t, order).groups);
        assert Ranks(rank, ResetGroup(t, e, order).tables.groups);
      }
  }

  lemma EmptyIsValid()
    ensures Valid(EMPTY_TABLES)
  {
    assert Ranks(_ => 0, EMPTY_TABLES.groups);
  }

  /** Main result: every state that calls can reach from an empty store is valid. */
  lemma {:induction false} ReachableIsValid(ops: seq<Op>)
    ensures Valid(Run(EMPTY_TABLES, ops))
  {
    if ops == [] {
      EmptyIsValid();
    } else {
      var init, last := ops[..|ops| - 1], ops[|ops| - 1];
      ReachableIsValid(init);
      ApplyKeeps(Run(EMPTY_TABLES, init), last);
      RunSnoc(EMPTY_TABLES, init, last);
      assert ops == init + [last];
    }
  }

  // ---- The merge forest ----

  ghost function Follow(groups: map<EventId, Group>, e: EventId, hops: nat): EventId
    decreases hops
  {
    if hops == 0 || e !in groups || groups[e].status != Merged then e
    else Follow(groups, LinkOf(groups, e), hops - 1)
  }

  lemma {:induction false} FollowRanks(groups: map<EventId, Group>, rank: EventId -> nat, e: EventId)
    requires GroupLinks(groups) && Ranks(rank, groups) && e in groups
    ensures var r := Follow(groups, e, rank(e)); r in groups && groups[r].status != Merged
    decreases rank(e)
  {
    if groups[e].status == Merged {
      var next := LinkOf(groups, e);
      FollowRanks(groups, rank, next);
      FollowStays(groups, next, rank(next), rank(e) - 1);
    }
  }

  /** Once the links are exhausted, more hops lead nowhere else. */
  lemma {:induction false} FollowStays(groups: map<EventId, Group>, e: EventId, m: nat, n: nat)
    requires m <= n
    requires var r := Follow(groups, e, m); r in groups && groups[r].status != Merged
    ensures Follow(groups, e, n) == Follow(groups, e, m)
    decreases n
  {
    if n > 0 && e in groups && groups[e].status == Merged {
      FollowStays(groups, LinkOf(groups, e), m - 1, n - 1);
    }
  }

  /** Following merge links from any group of a reachable state ends at an existing group that is not merged. */
  lemma MergeLinksTerminate(ops: seq<Op>, e: EventId)
    requires e in Run(EMPTY_TABLES, ops).groups
    ensures var groups := Run(EMPTY_TABLES, ops).groups;
            exists hops :: Follow(groups, e, hops) in groups && groups[Follow(groups, e, hops)].status != Merged
  {
    ReachableIsValid(ops);
    var groups := Run(EMPTY_TABLES, ops).groups;
    var rank: EventId -> nat :| Ranks(rank, groups);
    FollowRanks(groups, rank, e);
  }

  /** Two groups of one reachable state never share an auto key. */
  lemma AutoKeysUnique(ops: seq<Op>, e: EventId, f: EventId)
    requires var groups := Run(EMPTY_TABLES, ops).groups;
             e in groups && f in groups && groups[e].autoKey.Some? && groups[e].autoKey == groups[f].autoKey
    ensures e == f == AutoEventId(Run(EMPTY_TABLES, ops).groups[e].autoKey.value)
  {
    ReachableIsValid(ops);
  }
}
