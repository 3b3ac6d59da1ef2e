/** Runs from an empty store that show where the event groups do not do what is expected of them. */
module EventWitness {
  import opened PyText
  import opened EventModel
  import opened EventInvariant
  import opened EventReset
  import opened EventRuns
  import opened EventLaws

  function Reported(key: string): Analysis {
    Analysis(Some(key), "Title", None, "")
  }

  function InputFor(key: string): EventInput {
    EventInput(key, "Title", None, "")
  }

  /** The first ingest of an asset under a key that has no group yet. */
  function FirstIngest(asset: AssetId, key: string): seq<Op> {
    [OpUpsertAsset(asset), OpIngest(asset, Reported(key))]
  }

  function IngestedFirst(t: Tables, a: AssetId, key: string): Tables {
    Tables(t.assets + {a}, t.analyses[a := Reported(key)], t.groups[AutoEventId(key) := FreshAuto(InputFor(key))],
           t.members[a := Member(Some(AutoEventId(key)), Some(key), ByAuto)])
  }

  lemma FirstIngestRuns(t: Tables, a: AssetId, key: string)
    requires Strip(key) == key != "" && AutoEventId(key) !in t.groups && a !in t.members
    ensures Run(t, FirstIngest(a, key)) == IngestedFirst(t, a, key)
  {
    var t1 := Apply(t, OpUpsertAsset(a));
    RunStep(t, OpUpsertAsset(a), [OpIngest(a, Reported(key))]);
    RunStep(t1, OpIngest(a, Reported(key)), []);
    assert FirstIngest(a, key) == [OpUpsertAsset(a)] + [OpIngest(a, Reported(key))];
    assert [OpIngest(a, Reported(key))] == [OpIngest(a, Reported(key))] + [];
  }

  lemma OneMerge(t: Tables, target: EventId, source: EventId)
    requires Visible(t, target) && Visible(t, source) && Strip(source) == source != "" && source != target
    ensures Apply(t, OpMerge(target, [source])) == MergedTables(t, target, {source})
    ensures MergeSources(target, [source]) == {source}
  {
    assert source in [source];
    assert MergeSources(target, [source]) == {source};
  }

  /** Three assets ingested under three keys, one event each. */
  ghost predicate ThreeEvents(t: Tables, x: AssetId, a: EventId, b: EventId, c: EventId) {
    && a != b && b != c && a != c
    && Visible(t, a) && Visible(t, b) && Visible(t, c)
    && x in t.members && t.members[x].event == Some(a)
  }

  /**
   In every valid state: after merging event `a` into `b` and then `b` into `c`, a late asset with `a`'s
   key is put in `b`, which is no longer shown, although `a`'s earlier asset has moved on to `c`.
   */
  lemma ChainedMergeMisplaces(t: Tables, x: AssetId, key: string, b: EventId, c: EventId, w: AssetId)
    requires Valid(t) && ThreeEvents(t, x, AutoEventId(key), b, c) && w !in t.members
    requires Strip(key) == key != ""
    requires Strip(AutoEventId(key)) == AutoEventId(key) && Strip(b) == b != ""
    ensures var t' := Run(t, [OpMerge(b, [AutoEventId(key)]), OpMerge(c, [b]), OpUpsertAsset(w),
        OpIngest(w, Reported(key))]);
            && w in t'.members && t'.members[w].event == Some(b) && !Visible(t', b)
            && x in t'.members && t'.members[x].event == Some(c)
  {
    var a := AutoEventId(key);
    var t1, t2 := MergedTables(t, b, {a}), MergedTables(MergedTables(t, b, {a}), c, {b});
    OneMerge(t, b, a);
    OneMerge(t1, c, b);
    RunFour(t, OpMerge(b, [a]), OpMerge(c, [b]), OpUpsertAsset(w), OpIngest(w, Reported(key)));
    assert t2.groups[a].status == Merged && t2.groups[a].source.mergedInto == Some(b);
  }

  lemma RunFour(t: Tables, o1: Op, o2: Op, o3: Op, o4: Op)
    ensures Run(t, [o1, o2, o3, o4]) == Apply(Apply(Apply(Apply(t, o1), o2), o3), o4)
  {
    assert [o1, o2, o3, o4] == [o1] + [o2, o3, o4] && [o2, o3, o4] == [o2] + [o3, o4]
           && [o3, o4] == [o3] + [o4] && [o4] == [o4] + [];
    RunStep(t, o1, [o2, o3, o4]);
    RunStep(Apply(t, o1), o2, [o3, o4]);
    RunStep(Apply(Apply(t, o1), o2), o3, [o4]);
    RunStep(Apply(Apply(Apply(t, o1), o2), o3), o4, []);
  }

  /**
   In every valid state: when a split-off event is reset while a group merged into it stays merged,
   because no asset with that group's key is left, a late asset with the key lands in the retired event.
   */
  lemma ResetTargetMisplaces(t: Tables, key: string, target: EventId, order: seq<AssetId>, w: AssetId)
    requires Valid(t) && Visible(t, target) && t.groups[target].autoKey.None? && Enumerates(order, Rows(t, target))
    requires AutoEventId(key) in t.groups && t.groups[AutoEventId(key)].source.mergedInto == Some(target)
    requires forall a :: a in Rows(t, target) ==> !KeyedTo(t, a, AutoEventId(key))
    requires w in t.assets && w !in t.members && Strip(key) == key != ""
    ensures var t1 := Apply(t, OpReset(target, order));
            var t' := Apply(t1, OpIngest(w, Reported(key)));
            w in t'.members && t'.members[w].event == Some(target) && !Visible(t', target)
  {
    var t1 := Apply(t, OpReset(target, order));
    ResetRestores(t, target, order);
    ApplyKeeps(t, OpReset(target, order));
    assert SameMember(t, t1, w) && SameGroup(t, t1, AutoEventId(key));
    RestoreAll(t, order, Rows(t, target));
    LateIngestLands(t1, w, Reported(key));
    LateIngestVisible(t1, w, Reported(key));
  }

  /** Renaming the event of a single asset that was then removed raises, but the new title stays. */
  lemma FailedRenameSticks(t: Tables, e: EventId, asset: AssetId, title: string)
    requires Valid(t) && Visible(t, e) && Rows(t, e) == {asset}
    requires NormalizeTitle(title).Some? && NormalizeTitle(title).value != t.groups[e].title
    ensures var t1 := Apply(t, OpRemove(e, asset));
            var r := Rename(t1, e, title);
            && r.reply == LookupError
            && r.tables.groups[e].title != t1.groups[e].title
  {
    var t1 := Apply(t, OpRemove(e, asset));
    assert asset in Rows(t, e);
    forall a ensures a !in AssetsOf(Rename(t1, e, title).tables, e) {
      if a in t.members && t.members[a].event == Some(e) { assert a in Rows(t, e); }
    }
    assert AssetsOf(Rename(t1, e, title).tables, e) == {};
  }

  // ---- Runs from an empty store ----

  /** Two events of one asset each. */
  ghost function TwoEvents(x: AssetId, y: AssetId, a: string, b: string): Tables {
    Run(EMPTY_TABLES, FirstIngest(x, a) + FirstIngest(y, b))
  }

  lemma TwoEventsAre(x: AssetId, y: AssetId, a: string, b: string)
    requires x != y && a != b && Strip(a) == a != "" && Strip(b) == b != ""
    ensures var t := TwoEvents(x, y, a, b);
            && t == IngestedFirst(IngestedFirst(EMPTY_TABLES, x, a), y, b)
            && Rows(t, AutoEventId(a)) == {x} && Rows(t, AutoEventId(b)) == {y}
  {
    AutoIdsInjective(a, b);
    RunThen(EMPTY_TABLES, FirstIngest(x, a), FirstIngest(y, b));
    FirstIngestRuns(EMPTY_TABLES, x, a);
    FirstIngestRuns(IngestedFirst(EMPTY_TABLES, x, a), y, b);
  }

  /**
   Three first ingests from an empty store lead to a (valid) state from which the chained merge misplaces
   an asset.
   */
  lemma ThreeEventsReachable(x: AssetId, y: AssetId, z: AssetId, a: string, b: string, c: string)
    requires x != y && y != z && x != z && a != b && b != c && a != c
    requires Strip(a) == a != "" && Strip(b) == b != "" && Strip(c) == c != ""
    ensures var t := Run(EMPTY_TABLES, FirstIngest(x, a) + FirstIngest(y, b) + FirstIngest(z, c));
            && t.members.Keys == {x, y, z}
            && ThreeEvents(t, x, AutoEventId(a), AutoEventId(b), AutoEventId(c))
  {
    TwoEventsAre(x, y, a, b);
    AutoIdsInjective(a, b);
    AutoIdsInjective(a, c);
    AutoIdsInjective(b, c);
    RunThen(EMPTY_TABLES, FirstIngest(x, a) + FirstIngest(y, b), FirstIngest(z, c));
    FirstIngestRuns(TwoEvents(x, y, a, b), z, c);
  }

  lemma OneRemove(t: Tables, e: EventId, asset: AssetId)
    requires Valid(t) && Visible(t, e) && asset in Rows(t, e)
    ensures var t' := Apply(t, OpRemove(e, asset));
            && t'.groups == t.groups && Rows(t', e) == Rows(t, e) - {asset}
            && forall f :: f != e ==> Rows(t', f) == Rows(t, f)
  {
    var t' := Apply(t, OpRemove(e, asset));
    assert Rows(t', e) == Rows(t, e) - {asset};
    forall f | f != e ensures Rows(t', f) == Rows(t, f) {
      forall a ensures a in Rows(t', f) <==> a in Rows(t, f) {}
    }
  }

  /** A merge that raises and has written: both events have lost their only asset. */
  lemma FailedMergeReachable(x: AssetId, y: AssetId, a: string, b: string)
    requires x != y && a != b && Strip(a) == a != "" && Strip(b) == b != "" && Strip(AutoEventId(b)) == AutoEventId(b)
    ensures var first, second := AutoEventId(a), AutoEventId(b);
            var t := Run(EMPTY_TABLES, FirstIngest(x, a) + FirstIngest(y, b) + [OpRemove(first, x)]
                                       + [OpRemove(second, y)]);
            Merge(t, first, [second]).reply == LookupError && Merge(t, first, [second]).tables != t
  {
    var first, second := AutoEventId(a), AutoEventId(b);
    var ops := FirstIngest(x, a) + FirstIngest(y, b);
    var t := Run(EMPTY_TABLES, ops);
    TwoEventsAre(x, y, a, b);
    AutoIdsInjective(a, b);
    ReachableIsValid(ops);
    OneRemove(t, first, x);
    var t1 := Apply(t, OpRemove(first, x));
    ApplyKeeps(t, OpRemove(first, x));
    OneRemove(t1, second, y);
    var t2 := Apply(t1, OpRemove(second, y));
    ApplyKeeps(t1, OpRemove(second, y));
    RunSnoc(EMPTY_TABLES, ops, OpRemove(first, x));
    RunSnoc(EMPTY_TABLES, ops + [OpRemove(first, x)], OpRemove(second, y));
    OneMerge(t2, first, second);
    EmptyMergeRaises(t2, first, second);
  }

  lemma EmptyMergeRaises(t: Tables, target: EventId, source: EventId)
    requires Valid(t) && Visible(t, target) && Visible(t, source) && MergeSources(target, [source]) == {source}
    requires Rows(t, target) == {} && Rows(t, source) == {}
    ensures Merge(t, target, [source]).reply == LookupError && Merge(t, target, [source]).tables != t
  {
    forall a ensures a !in AssetsOfAll(t, {source} + {target}) {
      assert a !in Rows(t, target) && a !in Rows(t, source);
    }
    assert AssetsOfAll(t, MergeSources(target, [source]) + {target}) == {};
    MergeRaisesAfterWriting(t, target, [source]);
  }

  /** A rename that raises and has written: the event has lost its only asset. */
  lemma FailedRenameReachable(x: AssetId, a: string, title: string)
    requires Strip(a) == a != "" && NormalizeTitle(title).Some? && NormalizeTitle(title).value != "Title"
    ensures var t := Run(EMPTY_TABLES, FirstIngest(x, a) + [OpRemove(AutoEventId(a), x)]);
            var r := Rename(t, AutoEventId(a), title);
            && r.reply == LookupError && AutoEventId(a) in t.groups
            && r.tables.groups[AutoEventId(a)].title != t.groups[AutoEventId(a)].title
  {
    ReachableIsValid(FirstIngest(x, a));
    FirstIngestRuns(EMPTY_TABLES, x, a);
    RunSnoc(EMPTY_TABLES, FirstIngest(x, a), OpRemove(AutoEventId(a), x));
    var t := Run(EMPTY_TABLES, FirstIngest(x, a));
    assert Rows(t, AutoEventId(a)) == {x};
    FailedRenameSticks(t, AutoEventId(a), x, title);
  }

  /** A reset after which the manual title stays: the event was renamed and then lost its only asset. */
  lemma ManualTitleOutlivesReset(x: AssetId, a: string, title: string)
    requires Strip(a) == a != "" && NormalizeTitle(title).Some?
    ensures var e := AutoEventId(a);
            var t := Run(EMPTY_TABLES, FirstIngest(x, a) + [OpRename(e, title)] + [OpRemove(e, x)] + [OpReset(e, [])]);
            e in t.groups && t.groups[e].status == Manual && t.groups[e].title == NormalizeTitle(title).value
  {
    var e, ops := AutoEventId(a), FirstIngest(x, a);
    FirstIngestRuns(EMPTY_TABLES, x, a);
    RunSnoc(EMPTY_TABLES, ops, OpRename(e, title));
    RunSnoc(EMPTY_TABLES, ops + [OpRename(e, title)], OpRemove(e, x));
    RunSnoc(EMPTY_TABLES, ops + [OpRename(e, title)] + [OpRemove(e, x)], OpReset(e, []));
    var t := Run(EMPTY_TABLES, ops + [OpRename(e, title)] + [OpRemove(e, x)]);
    assert Rows(t, e) == {};
    assert Enumerates([], Rows(t, e));
  }

  lemma OneSplit(t: Tables, e: EventId, asset: AssetId, title: string, draw: string)
    requires Valid(t) && Visible(t, e) && Rows(t, e) == {asset} && Strip(asset) == asset != ""
    requires NormalizeTitle(title).Some? && ManualEventId(draw) !in t.groups
    ensures var m := ManualEventId(draw);
            var t' := Apply(t, OpSplit(e, [asset], title, draw));
            && t' == SplitTables(t, e, {asset}, NormalizeTitle(title).value, m)
            && Visible(t', m) && t'.groups[m].autoKey.None? && Rows(t', m) == {asset}
            && forall f :: f !in {e, m} ==> Rows(t', f) == Rows(t, f)
  {
    assert asset in [asset];
    assert CleanIds([asset]) == {asset};
    var m, t' := ManualEventId(draw), Apply(t, OpSplit(e, [asset], title, draw));
    assert Rows(t, m) == {};
    assert Rows(t', m) == {asset};
    forall f | f !in {e, m} ensures Rows(t', f) == Rows(t, f) {
      forall a ensures a in Rows(t', f) <==> a in Rows(t, f) { if a == asset { assert a in Rows(t, e); } }
    }
  }

  /** `y`, the only asset of the second event, split off ... */
  function SplitOff(x: AssetId, y: AssetId, a: string, b: string, title: string, draw: string): seq<Op> {
    FirstIngest(x, a) + FirstIngest(y, b) + [OpSplit(AutoEventId(b), [y], title, draw)]
  }

  lemma SplitOffState(x: AssetId, y: AssetId, a: string, b: string, title: string, draw: string)
    requires x != y && a != b && Strip(a) == a != "" && Strip(b) == b != "" && Strip(y) == y != ""
    requires NormalizeTitle(title).Some?
    ensures var t := Run(EMPTY_TABLES, SplitOff(x, y, a, b, title, draw));
            var m, first := ManualEventId(draw), AutoEventId(a);
            && Visible(t, m) && t.groups[m].autoKey.None? && Rows(t, m) == {y}
            && first != m && Visible(t, first) && Rows(t, first) == {x}
            && t.analyses == map[x := Reported(a), y := Reported(b)]
  {
    TwoEventsAre(x, y, a, b);
    AutoIdsInjective(a, b);
    ReachableIsValid(FirstIngest(x, a) + FirstIngest(y, b));
    AutoIsNotManual(a);
    AutoIsNotManual(b);
    OneSplit(TwoEvents(x, y, a, b), AutoEventId(b), y, title, draw);
    RunSnoc(EMPTY_TABLES, FirstIngest(x, a) + FirstIngest(y, b), OpSplit(AutoEventId(b), [y], title, draw));
  }

  /** ... then the first event, which holds only `x`, merged into it. */
  function MergedIntoSplitOff(x: AssetId, y: AssetId, a: string, b: string, title: string, draw: string): seq<Op> {
    SplitOff(x, y, a, b, title, draw) + [OpMerge(ManualEventId(draw), [AutoEventId(a)])]
  }

  lemma MergeIntoSplitOff(x: AssetId, y: AssetId, a: string, b: string, title: string, draw: string)
    requires x != y && a != b && Strip(a) == a != "" && Strip(b) == b != "" && Strip(y) == y != ""
    requires Strip(AutoEventId(a)) == AutoEventId(a) && NormalizeTitle(title).Some?
    ensures var t := Run(EMPTY_TABLES, MergedIntoSplitOff(x, y, a, b, title, draw));
            var m := ManualEventId(draw);
            && Visible(t, m) && t.groups[m].autoKey.None? && Rows(t, m) == {x, y}
            && AutoEventId(a) in t.groups && t.groups[AutoEventId(a)].source.mergedInto == Some(m)
            && t.analyses == map[x := Reported(a), y := Reported(b)]
  {
    SplitOffState(x, y, a, b, title, draw);
    ReachableIsValid(SplitOff(x, y, a, b, title, draw));
    MergeOfTwo(Run(EMPTY_TABLES, SplitOff(x, y, a, b, title, draw)), ManualEventId(draw), AutoEventId(a));
    RunSnoc(EMPTY_TABLES, SplitOff(x, y, a, b, title, draw), OpMerge(ManualEventId(draw), [AutoEventId(a)]));
  }

  lemma MergeOfTwo(t: Tables, target: EventId, source: EventId)
    requires Valid(t) && Visible(t, target) && Visible(t, source) && Strip(source) == source != "" && source != target
    ensures var t' := Apply(t, OpMerge(target, [source]));
            && t'.analyses == t.analyses && Visible(t', target)
            && t'.groups[target].autoKey == t.groups[target].autoKey
            && source in t'.groups && t'.groups[source].source.mergedInto == Some(target)
            && Rows(t', target) == Rows(t, target) + Rows(t, source)
  {
    OneMerge(t, target, source);
    assert Rows(MergedTables(t, target, {source}), target) == Rows(t, target) + Rows(t, source);
  }

  /** The event the reset retires, and the late asset that lands in it all the same. */
  lemma ResetTargetReachable(x: AssetId, y: AssetId, w: AssetId, a: string, b: string, title: string, draw: string)
    requires x != y && y != w && x != w && a != b
    requires Strip(a) == a != "" && Strip(b) == b != "" && Strip(y) == y != ""
    requires Strip(AutoEventId(a)) == AutoEventId(a) && NormalizeTitle(title).Some?
    ensures var m := ManualEventId(draw);
            var t := Run(EMPTY_TABLES, MergedIntoSplitOff(x, y, a, b, title, draw)
                         + [OpRemove(m, x)] + [OpUpsertAsset(w)] + [OpReset(m, [y])] + [OpIngest(w, Reported(a))]);
            w in t.members && t.members[w].event == Some(m) && !Visible(t, m)
  {
    var m, ops := ManualEventId(draw), MergedIntoSplitOff(x, y, a, b, title, draw);
    var t := Run(EMPTY_TABLES, ops);
    MergeIntoSplitOff(x, y, a, b, title, draw);
    ReachableIsValid(ops);
    OneRemove(t, m, x);
    var t1 := Apply(t, OpRemove(m, x));
    ApplyKeeps(t, OpRemove(m, x));
    var t2 := Apply(t1, OpUpsertAsset(w));
    ApplyKeeps(t1, OpUpsertAsset(w));
    assert Rows(t2, m) == Rows(t1, m) == {y};
    assert KeyedTo(t2, y, AutoEventId(b));
    AutoIdsInjective(a, b);
    ResetTargetMisplaces(t2, a, m, [y], w);
    RunSnoc(EMPTY_TABLES, ops, OpRemove(m, x));
    RunSnoc(EMPTY_TABLES, ops + [OpRemove(m, x)], OpUpsertAsset(w));
    RunSnoc(EMPTY_TABLES, ops + [OpRemove(m, x)] + [OpUpsertAsset(w)], OpReset(m, [y]));
    RunSnoc(EMPTY_TABLES, ops + [OpRemove(m, x)] + [OpUpsertAsset(w)] + [OpReset(m, [y])], OpIngest(w, Reported(a)));
  }

  /** Keys, ids and titles that meet what the last lemmas ask of them. */
  lemma PlainNames()
    ensures forall s :: s in {"a", "b", "c", "x", "y", "auto-a", "auto-b"} ==> Strip(s) == s != ""
    ensures NormalizeTitle("T") == Some("T")
    ensures AutoEventId("a") == "auto-a" && AutoEventId("b") == "auto-b"
  {
    NormalizedTitle("T");
    assert Words("T") == ["T"];
  }
}
