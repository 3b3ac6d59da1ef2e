/** Laws about sequences of rescans, and about where a late asset lands. */
module EventRuns {
  import opened PyText
  import opened EventModel
  import opened EventInvariant
  import opened EventReset
  import opened EventLaws

  predicate IsRescan(op: Op) {
    op.OpUpsertAsset? || op.OpIngest?
  }

  // ---- Manual work survives rescans ----

  /** Hand-made memberships, all statuses, all merge links, and the titles of manual groups are the same in `t'`. */
  ghost predicate Protects(t: Tables, t': Tables) {
    && (forall a :: a in t.members && t.members[a].assignment != ByAuto ==>
        a in t'.members && t'.members[a] == t.members[a])
    && GroupsProtected(t.groups, t'.groups)
  }

  ghost predicate GroupsProtected(groups: map<EventId, Group>, groups': map<EventId, Group>) {
    forall e :: e in groups ==>
      && e in groups' && groups'[e].status == groups[e].status
      && LinkOf(groups', e) == LinkOf(groups, e)
      && (groups[e].status != Auto ==> groups'[e].title == groups[e].title)
  }

  lemma EnsureProtects(groups: map<EventId, Group>, inp: EventInput)
    requires GroupIds(groups) && GroupLinks(groups)
    ensures GroupsProtected(groups, Ensure(groups, inp, false).groups)
  {
    var id := AutoEventId(inp.autoKey);
    AutoIsNotManual(inp.autoKey);
    if id in groups && groups[id].status == Merged {
      assert LinkOf(groups, id) in groups;
    }
  }

  lemma IngestProtects(t: Tables, a: AssetId, an: Analysis)
    requires Valid(t)
    ensures Protects(t, RecordAnalysis(t, a, an).tables)
  {
    if InputOf(an).Some? { EnsureProtects(t.groups, InputOf(an).value); }
  }

  /** Main result: no sequence of rescans undoes manual work. */
  lemma {:induction false} RescansProtect(t: Tables, ops: seq<Op>)
    requires Valid(t) && forall op :: op in ops ==> IsRescan(op)
    ensures Protects(t, Run(t, ops))
    decreases |ops|
  {
    if ops != [] {
      var t1 := Apply(t, ops[0]);
      assert IsRescan(ops[0]);
      ApplyKeeps(t, ops[0]);
      if ops[0].OpIngest? { IngestProtects(t, ops[0].asset, ops[0].analysis); }
      RescansProtect(t1, ops[1..]);
    }
  }

  /**
   What one ingest writes. The group row of the reported key becomes that of a first ingest if there was none or
   it was automatic, gets just the new sort key and source if it was manual, and stays if it was merged; the asset
   goes to that group or where its merge link points, unless it was placed by hand. Nothing else changes.
   */
  lemma IngestsExactly(t: Tables, a: AssetId, an: Analysis)
    requires Valid(t) && a in t.assets
    ensures var s := t.(analyses := t.analyses[a := an]);
            RecordAnalysis(t, a, an) ==
              if a in t.members && t.members[a].assignment in {ByHand, Removed} then Step(s, Done)
              else if an.rawKey.None? || Strip(an.rawKey.value) == "" then Step(s.(members := t.members - {a}), Done)
              else
                var key := Strip(an.rawKey.value);
                var (row, landing) := RowAndLanding(t.groups, key, an);
                Step(s.(groups := t.groups[AutoEventId(key) := row],
                        members := t.members[a := Member(Some(landing), Some(key), ByAuto)]), Done)
  {
    if InputOf(an).Some? {
      var id := AutoEventId(InputOf(an).value.autoKey);
      AutoIsNotManual(InputOf(an).value.autoKey);
      if id in t.groups {
        AutoIdsInjective(InputOf(an).value.autoKey, t.groups[id].autoKey.value);
        assert t.groups[id := t.groups[id]] == t.groups;
      }
    }
    assert a !in t.members ==> t.members - {a} == t.members;
  }

  ghost function RowAndLanding(groups: map<EventId, Group>, key: string, an: Analysis): (Group, EventId) {
    var id, source := AutoEventId(key), Source(Derived(an.detail), None);
    if id !in groups || groups[id].status == Auto then (Group(Some(key), an.title, Auto, an.sortAt, source), id)
    else if groups[id].status == Merged then (groups[id], LinkOf(groups, id))
    else (groups[id].(sortAt := an.sortAt, source := source), id)
  }

  lemma IngestRefusesExactly(t: Tables, a: AssetId, an: Analysis)
    ensures RecordAnalysis(t, a, an).reply == if a in t.assets then Done else LookupError
  {
  }

  /** No rescan takes an asset away from the event it was merged into. */
  lemma MergeSurvivesRescans(t: Tables, target: EventId, sources: seq<string>, a: AssetId, ops: seq<Op>)
    requires Valid(t) && Merges(t, target, sources) && forall op :: op in ops ==> IsRescan(op)
    requires a in AssetsOfAll(t, MergeSources(target, sources) + {target})
    ensures a in AssetsOf(Run(Merge(t, target, sources).tables, ops), target)
  {
    MergePins(t, target, sources, a);
    MergeKeeps(t, target, sources);
    RescansProtect(Merge(t, target, sources).tables, ops);
  }

  /** Ingesting an analysis again changes nothing. */
  lemma IngestIdempotent(t: Tables, a: AssetId, an: Analysis)
    requires Valid(t) && a in t.assets
    ensures var t1 := RecordAnalysis(t, a, an).tables; RecordAnalysis(t1, a, an).tables == t1
  {
    var t1 := RecordAnalysis(t, a, an).tables;
    assert t1.analyses[a := an] == t1.analyses;
    if InputOf(an).Some? {
      if a in t1.members { assert t1.members[a := t1.members[a]] == t1.members; }
    }
  }

  // ---- Grouping without manual edits ----

  /** Every group is automatic, and every asset sits exactly where its latest analysis puts it. */
  ghost predicate AutoGrouped(t: Tables) {
    && AllAuto(t.groups)
    && (forall a :: a in t.members ==> StoredInput(t, a).Some?)
    && (forall a :: a in t.analyses ==> RestoredMember(t, t, a))
  }

  lemma {:induction false} RescansGroup(t: Tables, ops: seq<Op>)
    requires Valid(t) && AutoGrouped(t) && forall op :: op in ops ==> IsRescan(op)
    ensures AutoGrouped(Run(t, ops))
    decreases |ops|
  {
    if ops != [] {
      var t1 := Apply(t, ops[0]);
      assert IsRescan(ops[0]);
      ApplyKeeps(t, ops[0]);
      assert AutoGrouped(t1) by {
        if ops[0].OpIngest? { IngestGroups(t, ops[0].asset, ops[0].analysis); }
        else { assert forall a :: a in t.analyses ==> RestoredMember(t, t, a); }
      }
      RescansGroup(t1, ops[1..]);
    }
  }

  lemma IngestGroups(t: Tables, a: AssetId, an: Analysis)
    requires Valid(t) && AutoGrouped(t)
    ensures AutoGrouped(RecordAnalysis(t, a, an).tables)
  {
    if a in t.assets {
      IngestPlaces(t, a, an);
      StillGrouped(t, RecordAnalysis(t, a, an).tables, a, an);
    }
  }

  lemma StillGrouped(t: Tables, t1: Tables, a: AssetId, an: Analysis)
    requires AutoGrouped(t) && AllAuto(t1.groups) && t1.analyses == t.analyses[a := an]
    requires RestoredMember(t1, t1, a) && forall b :: b != a ==> SameMember(t, t1, b)
    ensures AutoGrouped(t1)
  {
    forall b | b in t1.analyses && b != a ensures RestoredMember(t1, t1, b) {
      assert StoredInput(t1, b) == StoredInput(t, b) && RestoredMember(t, t, b) && SameMember(t, t1, b);
    }
    forall b | b in t1.members && b != a ensures StoredInput(t1, b).Some? {
      assert StoredInput(t1, b) == StoredInput(t, b) && SameMember(t, t1, b);
    }
  }

  ghost predicate AllAuto(groups: map<EventId, Group>) {
    forall e :: e in groups ==> groups[e].status == Auto
  }

  lemma EnsureAllAuto(groups: map<EventId, Group>, inp: EventInput)
    requires AllAuto(groups)
    ensures var r := Ensure(groups, inp, false); AllAuto(r.groups) && r.event == AutoEventId(inp.autoKey)
  {
  }

  /** The ingested asset is put where its analysis says, and no other row changes. */
  lemma IngestPlaces(t: Tables, a: AssetId, an: Analysis)
    requires Valid(t) && AutoGrouped(t) && a in t.assets
    ensures var t1 := RecordAnalysis(t, a, an).tables;
            RestoredMember(t1, t1, a) && AllAuto(t1.groups) && (forall b :: b != a ==> SameMember(t, t1, b))
  {
    if a in t.members { PlacedByAuto(t, a); }
    var s := t.(analyses := t.analyses[a := an]);
    SyncPlaces(s, a, an);
    var t1 := RecordAnalysis(t, a, an).tables;
    assert StoredInput(t1, a) == InputOf(an);
    forall b | b != a ensures SameMember(t, t1, b) { assert SameMember(s, t1, b); }
  }

  lemma SyncPlaces(t: Tables, a: AssetId, an: Analysis)
    requires AllAuto(t.groups) && (a in t.members ==> t.members[a].assignment == ByAuto)
    ensures var t1 := Sync(t, a, an, true);
            && AllAuto(t1.groups) && t1.analyses == t.analyses
            && (InputOf(an).None? ==> a !in t1.members)
            && (InputOf(an).Some? ==> a in t1.members && t1.members[a] == AutoMember(InputOf(an).value))
  {
    if InputOf(an).Some? { EnsureAllAuto(t.groups, InputOf(an).value); }
  }

  lemma PlacedByAuto(t: Tables, a: AssetId)
    requires Valid(t) && AutoGrouped(t) && a in t.members
    ensures t.members[a].assignment == ByAuto
  {
    assert a in t.analyses && RestoredMember(t, t, a);
  }

  /** Main result: with no manual edits, two analysed assets share a group exactly when their latest keys agree. */
  lemma ShareGroupIffSameKey(ops: seq<Op>, a: AssetId, b: AssetId)
    requires forall op :: op in ops ==> IsRescan(op)
    requires var t := Run(EMPTY_TABLES, ops); StoredInput(t, a).Some? && StoredInput(t, b).Some?
    ensures var t := Run(EMPTY_TABLES, ops);
            && a in t.members && b in t.members && t.members[a].event.Some?
            && Visible(t, t.members[a].event.value)
            && (t.members[a].event == t.members[b].event <==>
                StoredInput(t, a).value.autoKey == StoredInput(t, b).value.autoKey)
  {
    EmptyIsValid();
    RescansGroup(EMPTY_TABLES, ops);
    ReachableIsValid(ops);
    var t := Run(EMPTY_TABLES, ops);
    assert RestoredMember(t, t, a) && RestoredMember(t, t, b);
    AutoIdsInjective(StoredInput(t, a).value.autoKey, StoredInput(t, b).value.autoKey);
  }

  /** ... so neither the order of ingests nor repeating them matters: the latest analyses determine all memberships. */
  lemma RescanOrderIrrelevant(ops: seq<Op>, ops': seq<Op>)
    requires forall op :: op in ops ==> IsRescan(op)
    requires forall op :: op in ops' ==> IsRescan(op)
    requires Run(EMPTY_TABLES, ops).analyses == Run(EMPTY_TABLES, ops').analyses
    ensures Run(EMPTY_TABLES, ops).members == Run(EMPTY_TABLES, ops').members
  {
    EmptyIsValid();
    RescansGroup(EMPTY_TABLES, ops);
    RescansGroup(EMPTY_TABLES, ops');
    ReachableIsValid(ops);
    ReachableIsValid(ops');
    var t, u := Run(EMPTY_TABLES, ops), Run(EMPTY_TABLES, ops');
    forall a ensures (a in t.members <==> a in u.members) && (a in t.members ==> t.members[a] == u.members[a]) {
      if a in t.analyses {
        assert StoredInput(t, a) == StoredInput(u, a);
        assert RestoredMember(t, t, a) && RestoredMember(u, u, a);
      }
    }
  }

  // ---- Where a late asset lands ----

  /** The event a new asset with key `key` is put in: the key's own group, or the target of its merge link. */
  ghost function Landing(t: Tables, key: string): EventId {
    var id := AutoEventId(key);
    if id in t.groups then LinkOf(t.groups, id) else id
  }

  /** The event that merging has left for the key: the end of the chain of merge links. */
  ghost predicate Survives(t: Tables, key: string, r: EventId) {
    exists hops :: Follow(t.groups, AutoEventId(key), hops) == r && (r in t.groups ==> t.groups[r].status != Merged)
  }

  lemma LateIngestLands(t: Tables, a: AssetId, an: Analysis)
    requires Valid(t) && a in t.assets && InputOf(an).Some?
    requires a in t.members ==> t.members[a].assignment == ByAuto
    ensures var t' := RecordAnalysis(t, a, an).tables;
            a in t'.members && t'.members[a].event == Some(Landing(t, InputOf(an).value.autoKey))
  {
    var id := AutoEventId(InputOf(an).value.autoKey);
    AutoIsNotManual(InputOf(an).value.autoKey);
  }

  /**
   The documented promise, "new assets matching a merged source key join the target", exactly: the code
   follows one merge link, so a late asset reaches the surviving event if and only if the target of the
   key's link was not merged away in turn.
   */
  lemma LateIngestReachesSurvivor(t: Tables, a: AssetId, an: Analysis, survivor: EventId)
    requires Valid(t) && a in t.assets && InputOf(an).Some?
    requires a in t.members ==> t.members[a].assignment == ByAuto
    requires Survives(t, InputOf(an).value.autoKey, survivor)
    ensures var key := InputOf(an).value.autoKey;
            var t' := RecordAnalysis(t, a, an).tables;
            t'.members[a].event == Some(survivor) <==>
              (Landing(t, key) in t.groups ==> t.groups[Landing(t, key)].status != Merged)
  {
    var key := InputOf(an).value.autoKey;
    var id := AutoEventId(key);
    LateIngestLands(t, a, an);
    var hops: nat :| Follow(t.groups, id, hops) == survivor;
    if id in t.groups && t.groups[id].status == Merged {
      assert hops > 0;
      var next := LinkOf(t.groups, id);
      assert Follow(t.groups, id, hops) == Follow(t.groups, next, hops - 1);
    }
  }

  /** A late asset is shown under an event exactly when that event was neither merged nor reset. */
  lemma LateIngestVisible(t: Tables, a: AssetId, an: Analysis)
    requires Valid(t) && a in t.assets && InputOf(an).Some?
    requires a in t.members ==> t.members[a].assignment == ByAuto
    ensures var key := InputOf(an).value.autoKey;
            var t' := RecordAnalysis(t, a, an).tables;
            Visible(t', t'.members[a].event.value) <==>
              (Landing(t, key) in t.groups ==> t.groups[Landing(t, key)].status !in {Merged, Reset})
  {
    LateIngestLands(t, a, an);
    AutoIsNotManual(InputOf(an).value.autoKey);
    IngestProtects(t, a, an);
  }
}
