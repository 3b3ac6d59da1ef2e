/** What the manual edits of event groups promise: conservation, frames, and which failures leave a trace. */
module EventLaws {
  import opened PyText
  import opened EventModel
  import opened EventInvariant

  // ---- Counting over several events ----

  ghost function AssetsOfAll(t: Tables, events: set<EventId>): set<AssetId> {
    set a | a in t.members && t.members[a].event.Some? && t.members[a].event.value in events
            && t.members[a].assignment != Removed
  }

  ghost function SumCounts(t: Tables, events: seq<EventId>): nat {
    if events == [] then 0 else Count(t, events[0]) + SumCounts(t, events[1..])
  }

  lemma {:induction false} SumIsUnion(t: Tables, order: seq<EventId>, events: set<EventId>)
    requires Enumerates(order, events)
    ensures SumCounts(t, order) == |AssetsOfAll(t, events)|
    decreases |order|
  {
    if order == [] {
      assert AssetsOfAll(t, events) == {};
    } else {
      var e, rest := order[0], events - {order[0]};
      assert order == [e] + order[1..];
      SumIsUnion(t, order[1..], rest);
      assert AssetsOfAll(t, events) == AssetsOf(t, e) + AssetsOfAll(t, rest);
    }
  }

  // ---- Merge ----

  ghost predicate Merges(t: Tables, target: EventId, sources: seq<string>) {
    && Visible(t, target)
    && MergeSources(target, sources) != {}
    && forall s :: s in MergeSources(target, sources) ==> Visible(t, s)
  }

  lemma MergedAssets(t: Tables, target: EventId, sources: seq<string>)
    requires Valid(t) && Merges(t, target, sources)
    ensures AssetsOf(Merge(t, target, sources).tables, target) ==
        AssetsOfAll(t, MergeSources(target, sources) + {target})
  {
  }

  lemma SourceRetired(t: Tables, target: EventId, sources: seq<string>, s: EventId)
    requires Valid(t) && Merges(t, target, sources) && s in MergeSources(target, sources)
    ensures var t' := Merge(t, target, sources).tables;
            Rows(t', s) == {} && Visible(t, s) && s in t'.groups && !Visible(t', s) && LinkOf(t'.groups, s) == target
  {
  }

  /**
   The target shows the assets of the target and of all distinct sources together, and the sources end
   empty and retired.
   */
  lemma MergeConserves(t: Tables, target: EventId, sources: seq<string>, order: seq<EventId>)
    requires Valid(t) && Merges(t, target, sources)
    requires Enumerates(order, MergeSources(target, sources))
    ensures var t' := Merge(t, target, sources).tables;
            && Count(t', target) == Count(t, target) + SumCounts(t, order)
            && AssetsOf(t', target) == AssetsOfAll(t, MergeSources(target, sources) + {target})
            && forall s :: s in MergeSources(target, sources) ==>
                 s in t'.groups && Rows(t', s) == {} && !Visible(t', s) && LinkOf(t'.groups, s) == target
  {
    var clean := MergeSources(target, sources);
    MergedAssets(t, target, sources);
    assert AssetsOfAll(t, clean + {target}) == AssetsOf(t, target) + AssetsOfAll(t, clean);
    SumIsUnion(t, order, clean);
    var t' := Merge(t, target, sources).tables;
    forall s | s in clean
      ensures s in t'.groups && Rows(t', s) == {} && !Visible(t', s) && LinkOf(t'.groups, s) == target
    {
      SourceRetired(t, target, sources, s);
    }
  }

  /**
   A merge makes the target manual and pins all its assets: each keeps its key and becomes a manual one of
   the target.
   */
  lemma MergePins(t: Tables, target: EventId, sources: seq<string>, a: AssetId)
    requires Valid(t) && Merges(t, target, sources)
    requires a in AssetsOfAll(t, MergeSources(target, sources) + {target})
    ensures var t' := Merge(t, target, sources).tables;
            && t'.groups[target] == t.groups[target].(status := Manual)
            && a in t'.members && t'.members[a] == Member(Some(target), t.members[a].autoKey, ByHand)
  {
  }

  /** Every other group keeps its row and its assets, and every asset of another event keeps its membership. */
  lemma MergeFrame(t: Tables, target: EventId, sources: seq<string>, e: EventId)
    requires Valid(t)
    requires e != target && e !in MergeSources(target, sources)
    ensures var t' := Merge(t, target, sources).tables;
            && (e in t'.groups <==> e in t.groups)
            && (e in t.groups ==> t'.groups[e] == t.groups[e])
            && Rows(t', e) == Rows(t, e)
            && (forall a :: a in Rows(t, e) ==> t'.members[a] == t.members[a])
            && t'.members.Keys == t.members.Keys
  {
    var t' := Merge(t, target, sources).tables;
    assert Rows(t', e) == Rows(t, e);
  }

  /** A merge of visible events raises exactly when all of them are empty; the rows are rewritten all the same. */
  lemma MergeRaisesAfterWriting(t: Tables, target: EventId, sources: seq<string>)
    requires Valid(t) && Merges(t, target, sources)
    ensures Merge(t, target, sources).reply == LookupError <==>
              AssetsOfAll(t, MergeSources(target, sources) + {target}) == {}
    ensures Merge(t, target, sources).tables != t
  {
    MergedAssets(t, target, sources);
    var s :| s in MergeSources(target, sources);
    SourceRetired(t, target, sources, s);
  }

  // ---- Split ----

  ghost predicate Splits(t: Tables, e: EventId, assets: seq<string>, title: string) {
    Visible(t, e) && CleanIds(assets) != {} && CleanIds(assets) <= Rows(t, e) && NormalizeTitle(title).Some?
  }

  /** A split moves exactly the chosen assets to the new event and loses none; it always shows the new event. */
  lemma SplitConserves(t: Tables, e: EventId, assets: seq<string>, title: string, newId: EventId)
    requires Valid(t) && Splits(t, e, assets, title) && newId !in t.groups
    ensures var r := Split(t, e, assets, title, newId);
            && AssetsOf(r.tables, newId) == CleanIds(assets)
            && AssetsOf(r.tables, e) == AssetsOf(t, e) - CleanIds(assets)
            && Count(r.tables, newId) + Count(r.tables, e) == Count(t, e)
            && r.reply == Shown(newId, r.tables.groups[newId], |CleanIds(assets)|)
            && (forall a :: a in CleanIds(assets) ==> r.tables.members[a].assignment == ByHand)
  {
    var chosen := CleanIds(assets);
    var t' := Split(t, e, assets, title, newId).tables;
    assert Rows(t, newId) == {};
    assert AssetsOf(t', newId) == chosen;
    assert AssetsOf(t', e) == AssetsOf(t, e) - chosen;
    assert chosen <= AssetsOf(t, e);
    assert AssetsOf(t, e) == (AssetsOf(t, e) - chosen) + chosen;
  }

  lemma SplitFrame(t: Tables, e: EventId, assets: seq<string>, title: string, newId: EventId, other: EventId)
    requires Valid(t) && newId !in t.groups && other !in {e, newId}
    ensures var t' := Split(t, e, assets, title, newId).tables;
            && (other in t'.groups <==> other in t.groups)
            && (other in t.groups ==> t'.groups[other] == t.groups[other])
            && (e in t.groups ==> t'.groups[e] == t.groups[e])
            && Rows(t', other) == Rows(t, other)
            && (forall a :: a in t.members && a !in CleanIds(assets) ==>
                a in t'.members && t'.members[a] == t.members[a])
  {
    var t' := Split(t, e, assets, title, newId).tables;
    assert Rows(t', other) == Rows(t, other);
  }

  // ---- Remove ----

  /** Removing an asset lowers the event's count by one, keeps the row as `removed`, and changes no other row. */
  lemma RemoveConserves(t: Tables, e: EventId, asset: AssetId)
    requires Valid(t) && Visible(t, e) && asset in Rows(t, e)
    ensures var t' := Remove(t, e, asset).tables;
            && Count(t', e) == Count(t, e) - 1
            && t' == t.(members := t.members[asset := Member(None, t.members[asset].autoKey, Removed)])
            && (forall f :: f != e ==> AssetsOf(t', f) == AssetsOf(t, f))
  {
    var t' := Remove(t, e, asset).tables;
    assert asset in AssetsOf(t, e);
    assert AssetsOf(t', e) == AssetsOf(t, e) - {asset};
    forall f | f != e ensures AssetsOf(t', f) == AssetsOf(t, f) {
      forall a ensures a in AssetsOf(t', f) <==> a in AssetsOf(t, f) {}
    }
  }

  // ---- What each call answers and writes ----

  predicate Live(t: Tables, e: EventId) {
    e in t.groups && t.groups[e].status in {Auto, Manual}
  }

  lemma LiveIsVisible(t: Tables, e: EventId)
    ensures Live(t, e) <==> Visible(t, e)
  {
    if e in t.groups {
      match t.groups[e].status
      case Auto =>
      case Manual =>
      case Merged =>
      case Reset =>
    }
  }

  function TitleText(title: string): string {
    Take(Join(" ", Words(title)), 160)
  }

  lemma CleanIdsAre(ids: seq<string>, x: string)
    ensures x in CleanIds(ids) <==> x != "" && exists i :: 0 <= i < |ids| && Strip(ids[i]) == x
  {
    if i :| 0 <= i < |ids| && Strip(ids[i]) == x { assert ids[i] in ids; }
  }

  /** An event is shown with its row and the number of rows that name it, if it is live and there are any. */
  lemma ShowsExactly(t: Tables, e: EventId)
    requires Valid(t)
    ensures Show(t, e) ==
              if Live(t, e) && Rows(t, e) != {} then Shown(e, t.groups[e], |Rows(t, e)|) else LookupError
  {
    assert AssetsOf(t, e) == Rows(t, e);
  }

  lemma RenamesExactly(t: Tables, e: EventId, title: string)
    requires MemberRows(t)
    ensures Rename(t, e, title) ==
              if !Live(t, e) then Step(t, LookupError)
              else if Words(title) == [] then Step(t, ValueError)
              else
                var g := t.groups[e].(title := TitleText(title), status := Manual);
                Step(t.(groups := t.groups[e := g]), if Rows(t, e) == {} then LookupError
                    else Shown(e, g, |Rows(t, e)|))
  {
    NormalizedTitle(title);
    LiveIsVisible(t, e);
    RowsAreShown(t, e);
  }

  /** In a valid state every row that names an event counts; and the count depends on the memberships alone. */
  lemma RowsAreShown(t: Tables, e: EventId)
    requires MemberRows(t)
    ensures forall u: Tables :: u.members == t.members ==> AssetsOf(u, e) == Rows(t, e)
  {
    assert AssetsOf(t, e) == Rows(t, e);
  }

  lemma MergeAnswersExactly(t: Tables, target: EventId, sources: seq<string>)
    requires Valid(t)
    ensures var clean := CleanIds(sources) - {target};
            var shown := AssetsOfAll(t, clean + {target});
            Merge(t, target, sources).reply ==
              if !Live(t, target) then LookupError
              else if clean == {} then ValueError
              else if (exists s :: s in clean && !Live(t, s)) || shown == {} then LookupError
              else Shown(target, t.groups[target].(status := Manual), |shown|)
  {
    if Merges(t, target, sources) { MergedAssets(t, target, sources); }
  }

  /** A source keeps its row but for the merged status and the link; a merge touches neither assets nor analyses. */
  lemma MergeMarksExactly(t: Tables, target: EventId, sources: seq<string>, s: EventId)
    requires Valid(t) && Merges(t, target, sources) && s in MergeSources(target, sources)
    ensures var t' := Merge(t, target, sources).tables;
            t'.assets == t.assets && t'.analyses == t.analyses && s in t'.groups
            && t'.groups[s] == t.groups[s].(status := Merged, source := Source(t.groups[s].source.origin, Some(target)))
  {
  }

  lemma SplitsExactly(t: Tables, e: EventId, assets: seq<string>, title: string, newId: EventId)
    requires Valid(t) && newId !in t.groups
    ensures var chosen := CleanIds(assets);
            var g := Group(None, TitleText(title), Manual, None, Source(SplitFrom(e, chosen), None));
            Split(t, e, assets, title, newId) ==
              if !Live(t, e) then Step(t, LookupError)
              else if chosen == {} || !(chosen <= Rows(t, e)) || Words(title) == [] then Step(t, ValueError)
              else Step(t.(groups := t.groups[newId := g], members := PinnedTo(t.members, chosen, newId)),
                        Shown(newId, g, |chosen|))
  {
    var chosen := CleanIds(assets);
    NormalizedTitle(title);
    LiveIsVisible(t, e);
    if Splits(t, e, assets, title) {
      assert MoveAssets(t.members, chosen, newId) == PinnedTo(t.members, chosen, newId);
      assert Split(t, e, assets, title, newId).reply.assets == |chosen| by {
        SplitConserves(t, e, assets, title, newId);
      }
      assert Split(t, e, assets, title, newId).reply.Shown? by { SplitConserves(t, e, assets, title, newId); }
    }
  }

  /** The chosen assets in the event, placed by hand, with the keys they had; all others as they were. */
  ghost function PinnedTo(members: map<AssetId, Member>, chosen: set<AssetId>, e: EventId): map<AssetId, Member> {
    map a | a in members :: if a in chosen then Member(Some(e), members[a].autoKey, ByHand) else members[a]
  }

  /** An asset is removed exactly if the event is live and the asset's row names that event. */
  lemma RemovesExactly(t: Tables, e: EventId, asset: AssetId)
    ensures Remove(t, e, asset) ==
              if Live(t, e) && asset in t.members && t.members[asset].event == Some(e)
              then Step(t.(members := t.members[asset := Member(None, t.members[asset].autoKey, Removed)]), Done)
              else Step(t, LookupError)
  {
    LiveIsVisible(t, e);
  }

  lemma ResetAnswersExactly(t: Tables, e: EventId, order: seq<AssetId>)
    ensures ResetGroup(t, e, order).reply == if Live(t, e) then ResetRows(|order|) else LookupError
  {
    LiveIsVisible(t, e);
  }

  // ---- Failures ----

  /** A rename of a visible event writes first: it raises `LookupError` exactly when the event shows no asset. */
  lemma RenameRaisesAfterWriting(t: Tables, e: EventId, title: string)
    requires Visible(t, e) && NormalizeTitle(title).Some?
    ensures var r := Rename(t, e, title);
            && (r.reply == LookupError <==> Count(t, e) == 0)
            && r.tables.groups[e].title == NormalizeTitle(title).value
            && r.tables.groups[e].status == Manual
  {
    assert AssetsOf(Rename(t, e, title).tables, e) == AssetsOf(t, e);
  }

  ghost predicate Raises(r: Step) {
    r.reply in {LookupError, ValueError}
  }

  /** The other calls write nothing when they raise. */
  lemma RefusalsWriteNothing(t: Tables, e: EventId, title: string, ids: seq<string>, newId: EventId, asset: AssetId,
                             analysis: Analysis, order: seq<AssetId>)
    requires Valid(t) && newId !in t.groups
    ensures Raises(Split(t, e, ids, title, newId)) ==> Split(t, e, ids, title, newId).tables == t
    ensures Raises(Remove(t, e, asset)) ==> Remove(t, e, asset).tables == t
    ensures Raises(ResetGroup(t, e, order)) ==> ResetGroup(t, e, order).tables == t
    ensures Raises(RecordAnalysis(t, asset, analysis)) ==> RecordAnalysis(t, asset, analysis).tables == t
  {
  }

  /** A merge that raises has written exactly when its events were all visible. */
  lemma FailedMergeWrites(t: Tables, target: EventId, sources: seq<string>)
    requires Valid(t) && Raises(Merge(t, target, sources))
    ensures Merge(t, target, sources).tables == t <==> !Merges(t, target, sources)
  {
    if Merges(t, target, sources) { MergeRaisesAfterWriting(t, target, sources); }
  }

  /**
   A rename that raises has written exactly when the event was visible and its row differs from the new
   title made manual.
   */
  lemma FailedRenameWrites(t: Tables, e: EventId, title: string)
    requires Raises(Rename(t, e, title))
    ensures Rename(t, e, title).tables == t <==>
              !(Visible(t, e) && NormalizeTitle(title).Some?
                && (t.groups[e].title != NormalizeTitle(title).value || t.groups[e].status != Manual))
  {
    if Visible(t, e) && NormalizeTitle(title).Some? {
      var g' := t.groups[e].(title := NormalizeTitle(title).value, status := Manual);
      assert Rename(t, e, title).tables.groups[e] == g';
      if g' == t.groups[e] { assert t.groups[e := g'] == t.groups; }
    }
  }
}
