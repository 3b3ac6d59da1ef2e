/**
 The event-group methods of the service store, on row tables shared by all users.

 Each method is proved to do to the tables of its own user exactly what the corresponding function of
 `EventModel` says, and nothing to any other user's rows.
 */
module EventStore {
  import opened PyText
  import opened EventModel
  import opened EventInvariant

  type UserId = string

  /** The rows of one user. */
  ghost function RowsOf<V>(table: map<(UserId, string), V>, u: UserId): map<string, V> {
    RowsExist(table, u);
    var rows :| AreRowsOf(table, u, rows);
    rows
  }

  ghost predicate AreRowsOf<V>(table: map<(UserId, string), V>, u: UserId, rows: map<string, V>) {
    && (forall k :: k in rows <==> (u, k) in table)
    && (forall k :: k in rows ==> rows[k] == table[(u, k)])
  }

  lemma RowsExist<V>(table: map<(UserId, string), V>, u: UserId)
    ensures exists rows :: AreRowsOf(table, u, rows)
  {
    var rows := map key | key in table && key.0 == u :: key.1 := table[key];
    assert forall k :: (u, k) in table ==> (u, k).1 in rows;
    assert AreRowsOf(table, u, rows);
  }

  ghost function KeysOf(table: set<(UserId, string)>, u: UserId): set<string> {
    set key | key in table && key.0 == u :: key.1
  }

  lemma KeyIn(table: set<(UserId, string)>, u: UserId, k: string)
    ensures k in KeysOf(table, u) <==> (u, k) in table
  {
    if (u, k) in table { assert (u, k).1 in KeysOf(table, u); }
  }

  lemma PutKey(table: set<(UserId, string)>, u: UserId, k: string)
    ensures KeysOf(table + {(u, k)}, u) == KeysOf(table, u) + {k}
    ensures forall w :: w != u ==> KeysOf(table + {(u, k)}, w) == KeysOf(table, w)
  {
    forall w, l ensures l in KeysOf(table + {(u, k)}, w) <==> l in KeysOf(table, w) || (w == u && l == k) {
      KeyIn(table + {(u, k)}, w, l);
      KeyIn(table, w, l);
    }
  }

  lemma PutRow<V>(table: map<(UserId, string), V>, u: UserId, k: string, v: V)
    ensures RowsOf(table[(u, k) := v], u) == RowsOf(table, u)[k := v]
    ensures forall w :: w != u ==> RowsOf(table[(u, k) := v], w) == RowsOf(table, w)
  {
  }

  lemma DropRow<V>(table: map<(UserId, string), V>, u: UserId, k: string)
    ensures RowsOf(table - {(u, k)}, u) == RowsOf(table, u) - {k}
    ensures forall w :: w != u ==> RowsOf(table - {(u, k)}, w) == RowsOf(table, w)
  {
  }

  /** The shared connection: one table per kind of row, keyed by user and id. */
  class Database {
    var assets: set<(UserId, AssetId)>
    var analyses: map<(UserId, AssetId), Analysis>
    var groups: map<(UserId, EventId), Group>
    var members: map<(UserId, AssetId), Member>

    constructor ()
      ensures forall u :: View(u) == EMPTY_TABLES
    {
      assets, analyses, groups, members := {}, map[], map[], map[];
    }

    ghost function View(u: UserId): Tables
      reads this
    {
      Tables(KeysOf(assets, u), RowsOf(analyses, u), RowsOf(groups, u), RowsOf(members, u))
    }
  }

  /** `_dedupe_event_ids`: the clean ids, each once. */
  method DedupeIds(values: seq<string>) returns (out: seq<string>)
    ensures Enumerates(out, CleanIds(values))
  {
    out := [];
    var seen := {};
    for n := 0 to |values|
      invariant seen == CleanIds(values[..n]) && Enumerates(out, seen)
    {
      var clean := Strip(values[n]);
      CleanIdsNext(values, n);
      if clean != "" && clean !in seen {
        seen := seen + {clean};
        out := out + [clean];
      }
    }
    assert values[..|values|] == values;
  }

  lemma CleanIdsNext(values: seq<string>, n: nat)
    requires n < |values|
    ensures CleanIds(values[..n + 1]) ==
              CleanIds(values[..n]) + (if Strip(values[n]) != "" then {Strip(values[n])} else {})
  {
    assert values[..n + 1] == values[..n] + [values[n]];
  }

  /** The rows of a query, in some order. */
  method InSomeOrder(rows: set<AssetId>) returns (order: seq<AssetId>)
    ensures Enumerates(order, rows)
  {
    order := [];
    var left := rows;
    while left != {}
      invariant left <= rows && Enumerates(order, rows - left)
      decreases left
    {
      var a :| a in left;
      order, left := order + [a], left - {a};
    }
  }

  class UserScopedState {
    const db: Database
    const userId: UserId

    constructor (db: Database, userId: UserId)
      ensures this.db == db && this.userId == userId
    {
      this.db, this.userId := db, userId;
    }

    /** The tables of this user. */
    ghost function Mine(): Tables
      reads db
    {
      db.View(userId)
    }

    /** No row of another user differs from the old state. */
    twostate predicate OthersKept()
      reads db
    {
      forall u :: u != userId ==> db.View(u) == old(db.View(u))
    }

    method UpsertAsset(asset: AssetId)
      modifies db
      ensures Mine() == Apply(old(Mine()), OpUpsertAsset(asset)) && OthersKept()
    {
      PutKey(db.assets, userId, asset);
      db.assets := db.assets + {(userId, asset)};
    }

    method IsVisible(event: EventId) returns (visible: bool)
      ensures visible <==> Visible(Mine(), event)
    {
      visible := (userId, event) in db.groups && db.groups[(userId, event)].status !in {Merged, Reset};
    }

    method GetEventGroup(event: EventId) returns (reply: Reply)
      ensures reply == Show(Mine(), event)
    {
      var visible := IsVisible(event);
      var shown := set k | k in db.members && k.0 == userId && db.members[k].event == Some(event)
                           && db.members[k].assignment != Removed :: k.1;
      assert shown == AssetsOf(Mine(), event) by {
        forall a ensures a in shown <==> a in AssetsOf(Mine(), event) {
          if a in AssetsOf(Mine(), event) { assert (userId, a) in db.members && (userId, a).1 in shown; }
        }
      }
      if !visible || |shown| <= 0 { return LookupError; }
      return Shown(event, db.groups[(userId, event)], |shown|);
    }

    // ---- Ingest ----

    /** The group with the auto key, looked up by that column. */
    method SelectByAutoKey(key: string) returns (hit: Option<EventId>)
      requires GroupIds(Mine().groups)
      ensures hit == if AutoEventId(key) in Mine().groups then Some(AutoEventId(key)) else None
    {
      AutoIsNotManual(key);
      if k :| k in db.groups && k.0 == userId && db.groups[k].autoKey == Some(key) {
        assert (userId, k.1) in db.groups;
        return Some(k.1);
      }
      if AutoEventId(key) in Mine().groups {
        var k := (userId, AutoEventId(key));
        assert k in db.groups && k.0 == userId;
        AutoIdsInjective(key, db.groups[k].autoKey.value);
      }
      return None;
    }

    method EnsureAutoEventGroup(inp: EventInput, restore: bool) returns (event: EventId)
      requires GroupIds(Mine().groups)
      modifies db`groups
      ensures var e := Ensure(old(Mine().groups), inp, restore);
              event == e.event && Mine() == old(Mine()).(groups := e.groups)
      ensures OthersKept()
    {
      var id := AutoEventId(inp.autoKey);
      var row := SelectByAutoKey(inp.autoKey);
      if row.None? {
        PutRow(db.groups, userId, id, FreshAuto(inp));
        db.groups := db.groups[(userId, id) := FreshAuto(inp)];
        return id;
      }
      var g := db.groups[(userId, row.value)];
      if g.status == Merged && !restore {
        if g.source.mergedInto.Some? && g.source.mergedInto.value != "" {
          return g.source.mergedInto.value;
        }
      }
      var source := Source(Derived(inp.detail), None);
      if g.status == Auto || restore {
        g := g.(title := inp.title, status := Auto, sortAt := inp.sortAt, source := source);
      } else {
        g := g.(sortAt := inp.sortAt, source := source);
      }
      PutRow(db.groups, userId, row.value, g);
      db.groups := db.groups[(userId, row.value) := g];
      return row.value;
    }

    method SyncAssetEventMembership(asset: AssetId, analysis: Analysis, preserve: bool) returns (event: Option<EventId>)
      requires GroupIds(Mine().groups)
      modifies db`groups, db`members
      ensures Mine() == Sync(old(Mine()), asset, analysis, preserve) && OthersKept()
      ensures event == if InputOf(analysis).None? then None else Mine().members[asset].event
    {
      var inp := InputOf(analysis);
      var key := (userId, asset);
      if inp.None? {
        if key in db.members && (!preserve || db.members[key].assignment == ByAuto) {
          DropRow(db.members, userId, asset);
          db.members := db.members - {key};
        }
        return None;
      }
      if preserve && key in db.members && db.members[key].assignment in {ByHand, Removed} {
        return db.members[key].event;
      }
      var id := EnsureAutoEventGroup(inp.value, !preserve);
      var row := Member(Some(id), Some(inp.value.autoKey), ByAuto);
      PutRow(db.members, userId, asset, row);
      db.members := db.members[key := row];
      return Some(id);
    }

    method RecordAssetAnalysis(asset: AssetId, analysis: Analysis) returns (reply: Reply)
      requires Valid(Mine())
      modifies db
      ensures Step(Mine(), reply) == RecordAnalysis(old(Mine()), asset, analysis)
      ensures Valid(Mine()) && OthersKept()
    {
      ApplyKeeps(Mine(), OpIngest(asset, analysis));
      KeyIn(db.assets, userId, asset);
      if (userId, asset) !in db.assets { return LookupError; }
      PutRow(db.analyses, userId, asset, analysis);
      db.analyses := db.analyses[(userId, asset) := analysis];
      var _ := SyncAssetEventMembership(asset, analysis, true);
      return Done;
    }

    // ---- Manual edits ----

    method RenameEventGroup(event: EventId, title: string) returns (reply: Reply)
      requires Valid(Mine())
      modifies db`groups
      ensures Step(Mine(), reply) == Rename(old(Mine()), event, title)
      ensures Valid(Mine()) && OthersKept()
    {
      ApplyKeeps(Mine(), OpRename(event, title));
      var visible := IsVisible(event);
      if !visible { return LookupError; }
      var clean := NormalizeTitle(title);
      if clean.None? { return ValueError; }
      var g := db.groups[(userId, event)].(title := clean.value, status := Manual);
      PutRow(db.groups, userId, event, g);
      db.groups := db.groups[(userId, event) := g];
      reply := GetEventGroup(event);
    }

    method MergeEventGroups(target: EventId, sources: seq<string>) returns (reply: Reply)
      requires Valid(Mine())
      modifies db`groups, db`members
      ensures Step(Mine(), reply) == Merge(old(Mine()), target, sources)
      ensures Valid(Mine()) && OthersKept()
    {
      ghost var t := Mine();
      ghost var clean := MergeSources(target, sources);
      var visible := IsVisible(target);
      if !visible { return LookupError; }
      var deduped := DedupeIds(sources);
      var ids := Without(deduped, target);
      assert forall x :: x in ids <==> x in clean;
      if ids == [] {
        assert clean == {};
        return ValueError;
      }
      assert ids[0] in clean;
      var allVisible, rows := VisibleRows(ids);
      if !allVisible { return LookupError; }
      assert forall x :: x in clean ==> Visible(t, x);
      reply := CommitMerge(target, sources, ids, rows);
    }

    /** A merge of visible events: the updates, then the answer. */
    method CommitMerge(target: EventId, ghost sources: seq<string>, ids: seq<EventId>, rows: seq<Group>)
        returns (reply: Reply)
      requires Valid(Mine()) && Visible(Mine(), target)
      requires MergeSources(target, sources) != {} && Enumerates(ids, MergeSources(target, sources)) && |rows| == |ids|
      requires forall s :: s in MergeSources(target, sources) ==> Visible(Mine(), s)
      requires forall i :: 0 <= i < |ids| ==> ids[i] in Mine().groups && rows[i] == Mine().groups[ids[i]]
      modifies db`groups, db`members
      ensures Step(Mine(), reply) == Merge(old(Mine()), target, sources)
      ensures Valid(Mine()) && OthersKept()
    {
      MergeKeeps(Mine(), target, sources);
      MergeRows(target, ids, rows, MergeSources(target, sources));
      reply := GetEventGroup(target);
    }

    /** The three updates of a merge. */
    method MergeRows(target: EventId, ids: seq<EventId>, rows: seq<Group>, ghost sources: set<EventId>)
      requires target in Mine().groups && target !in sources
      requires Enumerates(ids, sources) && |rows| == |ids|
      requires forall i :: 0 <= i < |ids| ==> ids[i] in Mine().groups && rows[i] == Mine().groups[ids[i]]
      modifies db`groups, db`members
      ensures Mine() == MergedTables(old(Mine()), target, sources) && OthersKept()
    {
      RepointRows(target, ids, sources);
      SetStatus(target, Manual);
      MarkSources(target, ids, rows, sources);
    }

    /** The rows of the source events, or that one of them is not visible. */
    method VisibleRows(ids: seq<EventId>) returns (visible: bool, rows: seq<Group>)
      ensures visible <==> forall x :: x in ids ==> Visible(Mine(), x)
      ensures visible ==> |rows| == |ids| && forall i :: 0 <= i < |ids| ==>
                            ids[i] in Mine().groups && rows[i] == Mine().groups[ids[i]]
    {
      rows := [];
      for i := 0 to |ids|
        invariant |rows| == i
        invariant forall j :: 0 <= j < i ==> Visible(Mine(), ids[j]) && rows[j] == Mine().groups[ids[j]]
      {
        visible := IsVisible(ids[i]);
        if !visible { return; }
        rows := rows + [db.groups[(userId, ids[i])]];
      }
      visible := true;
    }

    method SetStatus(event: EventId, status: Status)
      requires event in Mine().groups
      modifies db`groups
      ensures Mine() == old(Mine()).(groups :=
          old(Mine().groups)[event := old(Mine().groups)[event].(status := status)])
      ensures OthersKept()
    {
      var g := db.groups[(userId, event)].(status := status);
      PutRow(db.groups, userId, event, g);
      db.groups := db.groups[(userId, event) := g];
    }

    /** The loop over the sources: each row as it was read, with the merged status and the link added. */
    method MarkSources(target: EventId, ids: seq<EventId>, rows: seq<Group>, ghost sources: set<EventId>)
      requires Enumerates(ids, sources) && |rows| == |ids|
      requires forall i :: 0 <= i < |ids| ==> ids[i] in Mine().groups && rows[i] == Mine().groups[ids[i]]
      modifies db`groups
      ensures Mine() == old(Mine()).(groups := MarkMerged(old(Mine().groups), target, sources))
      ensures OthersKept()
    {
      ghost var t := Mine();
      for i := 0 to |ids|
        invariant Mine() == t.(groups := MarkMerged(t.groups, target, Prefix(ids, i)))
        invariant OthersKept()
      {
        var row := rows[i].(status := Merged, source := rows[i].source.(mergedInto := Some(target)));
        PutRow(db.groups, userId, ids[i], row);
        db.groups := db.groups[(userId, ids[i]) := row];
        assert Prefix(ids, i + 1) == Prefix(ids, i) + {ids[i]};
      }
      assert Prefix(ids, |ids|) == sources;
    }

    /** `UPDATE asset_event_memberships SET event_id = target, ... WHERE event_id IN (target, ids...)`. */
    method RepointRows(target: EventId, ids: seq<EventId>, ghost sources: set<EventId>)
      requires forall x :: x in ids <==> x in sources
      modifies db`members
      ensures Mine() == old(Mine()).(members := Repoint(old(Mine().members), sources + {target}, target))
      ensures OthersKept()
    {
      db.members := map k | k in db.members ::
        if k.0 == userId && db.members[k].event.Some?
           && (db.members[k].event.value == target || db.members[k].event.value in ids)
        then db.members[k].(event := Some(target), assignment := ByHand)
        else db.members[k];
      assert RowsOf(db.members, userId) == Repoint(old(Mine().members), sources + {target}, target);
      assert forall u :: u != userId ==> RowsOf(db.members, u) == old(RowsOf(db.members, u));
    }

    /** `_new_manual_event_id`: draws until the id is free; `draws` are the random values that come up. */
    method NewManualEventId(draws: seq<string>) returns (event: EventId)
      requires exists i :: 0 <= i < |draws| && ManualEventId(draws[i]) !in Mine().groups
      ensures event !in Mine().groups
      ensures exists i :: 0 <= i < |draws| && event == ManualEventId(draws[i])
                && forall j :: 0 <= j < i ==> ManualEventId(draws[j]) in Mine().groups
    {
      var i := 0;
      while (userId, ManualEventId(draws[i])) in db.groups
        invariant 0 <= i < |draws|
        invariant forall j :: 0 <= j < i ==> ManualEventId(draws[j]) in Mine().groups
        decreases |draws| - i
      {
        i := i + 1;
      }
      return ManualEventId(draws[i]);
    }

    method SplitEventGroup(event: EventId, assets: seq<string>, title: string, draws: seq<string>)
      returns (reply: Reply, newId: EventId)
      requires Valid(Mine())
      requires exists i :: 0 <= i < |draws| && ManualEventId(draws[i]) !in Mine().groups
      modifies db`groups, db`members
      ensures newId !in old(Mine()).groups && exists i :: 0 <= i < |draws| && newId == ManualEventId(draws[i])
      ensures Step(Mine(), reply) == Split(old(Mine()), event, assets, title, newId)
      ensures Valid(Mine()) && OthersKept()
    {
      ghost var t := Mine();
      newId := NewManualEventId(draws);
      var visible := IsVisible(event);
      if !visible { return LookupError, newId; }
      var ids := DedupeIds(assets);
      ghost var chosen := CleanIds(assets);
      if ids == [] {
        assert chosen == {};
        return ValueError, newId;
      }
      assert ids[0] in chosen;
      var belong := AllBelong(event, ids);
      if !belong { return ValueError, newId; }
      var clean := NormalizeTitle(title);
      if clean.None? { return ValueError, newId; }
      SplitRows(event, ids, chosen, clean.value, newId);
      SplitTablesKeeps(t, event, chosen, clean.value, newId);
      reply := GetEventGroup(newId);
    }

    /** The insert and the update of a split. */
    method SplitRows(event: EventId, ids: seq<AssetId>, ghost chosen: set<AssetId>, title: string, newId: EventId)
      requires forall x :: x in ids <==> x in chosen
      modifies db`groups, db`members
      ensures Mine() == SplitTables(old(Mine()), event, chosen, title, newId) && OthersKept()
    {
      var idSet := set a | a in ids;
      assert idSet == chosen;
      var row := Group(None, title, Manual, None, Source(SplitFrom(event, idSet), None));
      PutRow(db.groups, userId, newId, row);
      db.groups := db.groups[(userId, newId) := row];
      MoveRows(newId, ids, chosen);
    }

    /** Whether every one of the assets has a row that names the event. */
    method AllBelong(event: EventId, ids: seq<AssetId>) returns (belong: bool)
      ensures belong <==> forall a :: a in ids ==> a in Rows(Mine(), event)
    {
      var found := set k | k in db.members && k.0 == userId && db.members[k].event == Some(event) && k.1 in ids :: k.1;
      forall a | a in ids ensures a in found <==> a in Rows(Mine(), event) {
        if a in Rows(Mine(), event) { assert (userId, a) in db.members && (userId, a).1 in found; }
      }
      belong := forall a :: a in ids ==> a in found;
    }

    /** `UPDATE asset_event_memberships SET event_id = target, ... WHERE asset_id IN (ids...)`. */
    method MoveRows(target: EventId, ids: seq<AssetId>, ghost chosen: set<AssetId>)
      requires forall x :: x in ids <==> x in chosen
      modifies db`members
      ensures Mine() == old(Mine()).(members := MoveAssets(old(Mine().members), chosen, target))
      ensures OthersKept()
    {
      db.members := map k | k in db.members ::
        if k.0 == userId && k.1 in ids then db.members[k].(event := Some(target), assignment := ByHand)
        else db.members[k];
      assert RowsOf(db.members, userId) == MoveAssets(old(Mine().members), chosen, target);
      assert forall u :: u != userId ==> RowsOf(db.members, u) == old(RowsOf(db.members, u));
    }

    method RemoveAssetFromEvent(event: EventId, asset: AssetId) returns (reply: Reply)
      requires Valid(Mine())
      modifies db`members
      ensures Step(Mine(), reply) == Remove(old(Mine()), event, asset)
      ensures Valid(Mine()) && OthersKept()
    {
      ApplyKeeps(Mine(), OpRemove(event, asset));
      var visible := IsVisible(event);
      if !visible { return LookupError; }
      var key := (userId, asset);
      if !(key in db.members && db.members[key].event == Some(event)) { return LookupError; }
      var row := db.members[key].(event := None, assignment := Removed);
      PutRow(db.members, userId, asset, row);
      db.members := db.members[key := row];
      return Done;
    }

    method ResetEventGroup(event: EventId) returns (reply: Reply, ghost order: seq<AssetId>)
      requires Valid(Mine())
      modifies db`groups, db`members
      ensures Enumerates(order, Rows(old(Mine()), event))
      ensures Step(Mine(), reply) == ResetGroup(old(Mine()), event, order)
      ensures Valid(Mine()) && OthersKept()
    {
      ghost var t := Mine();
      var rows := set k | k in db.members && k.0 == userId && db.members[k].event == Some(event) :: k.1;
      assert rows == Rows(t, event) by {
        forall a ensures a in rows <==> a in Rows(t, event) {
          if a in Rows(t, event) { assert (userId, a) in db.members && (userId, a).1 in rows; }
        }
      }
      var assets := InSomeOrder(rows);
      order := assets;
      assert Valid(ResetGroup(t, event, order).tables) by { ApplyKeeps(t, OpReset(event, order)); }
      var visible := IsVisible(event);
      if !visible { return LookupError, order; }
      var retire := db.groups[(userId, event)].autoKey.None?;
      for i := 0 to |assets|
        invariant Valid(Mine()) && OthersKept() && event in Mine().groups
        invariant ResetAll(t, assets) == ResetAll(Mine(), assets[i..])
      {
        ResetMember(assets[i]);
        assert assets[i..][0] == assets[i] && assets[i..][1..] == assets[i + 1..];
      }
      if retire { SetStatus(event, Reset); }
      return ResetRows(|assets|), order;
    }

    /** One round of the reset loop. */
    method ResetMember(asset: AssetId)
      requires Valid(Mine())
      modifies db`groups, db`members
      ensures Mine() == ResetOne(old(Mine()), asset) && OthersKept()
      ensures Valid(Mine()) && old(Mine().groups.Keys) <= Mine().groups.Keys
    {
      ResetAllKeeps(Mine(), [asset]);
      assert ResetAll(Mine(), [asset]) == ResetOne(Mine(), asset);
      if (userId, asset) !in db.analyses {
        DropRow(db.members, userId, asset);
        db.members := db.members - {(userId, asset)};
      } else {
        var _ := SyncAssetEventMembership(asset, db.analyses[(userId, asset)], false);
      }
    }
  }

  ghost function Prefix(ids: seq<string>, n: nat): set<string> {
    set i | 0 <= i < n && i < |ids| :: ids[i]
  }

  method Without(ids: seq<string>, x: string) returns (out: seq<string>)
    ensures forall y :: y in out <==> y in ids && y != x
    ensures (forall i, j :: 0 <= i < j < |ids| ==> ids[i] != ids[j]) ==>
              (forall i, j :: 0 <= i < j < |out| ==> out[i] != out[j])
  {
    out := [];
    for n := 0 to |ids|
      invariant forall y :: y in out <==> y in ids[..n] && y != x
      invariant (forall i, j :: 0 <= i < j < |ids| ==> ids[i] != ids[j]) ==>
                  (forall i, j :: 0 <= i < j < |out| ==> out[i] != out[j])
    {
      if ids[n] != x {
        assert (forall i, j :: 0 <= i < j < |ids| ==> ids[i] != ids[j]) ==> ids[n] !in ids[..n];
        out := out + [ids[n]];
      }
    }
  }
}
