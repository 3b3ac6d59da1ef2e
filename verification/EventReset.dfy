/** Resetting an event restores automatic grouping. */
module EventReset {
  import opened PyText
  import opened EventModel
  import opened EventInvariant

  /** What the stored analysis of an asset contributes to automatic grouping, if it reports a key. */
  ghost function StoredInput(t: Tables, a: AssetId): Option<EventInput> {
    if a in t.analyses then InputOf(t.analyses[a]) else None
  }

  ghost predicate KeyedTo(t: Tables, a: AssetId, f: EventId) {
    StoredInput(t, a).Some? && AutoEventId(StoredInput(t, a).value.autoKey) == f
  }

  /** The row automatic grouping gives an asset. */
  ghost function AutoMember(inp: EventInput): Member {
    Member(Some(AutoEventId(inp.autoKey)), Some(inp.autoKey), ByAuto)
  }

  ghost predicate RestoredMember(t: Tables, t': Tables, a: AssetId) {
    match StoredInput(t, a)
    case None => a !in t'.members
    case Some(inp) => a in t'.members && t'.members[a] == AutoMember(inp)
  }

  /** The group row is the one a first ingest of one of `assets` would have written. */
  ghost predicate RestoredGroup(t: Tables, t': Tables, assets: set<AssetId>, f: EventId) {
    && f in t'.groups
    && exists a :: a in assets && KeyedTo(t, a, f) && t'.groups[f] == FreshAuto(StoredInput(t, a).value)
  }

  ghost predicate SameGroup(t: Tables, t': Tables, f: EventId) {
    (f in t'.groups <==> f in t.groups) && (f in t.groups ==> t'.groups[f] == t.groups[f])
  }

  ghost predicate SameMember(t: Tables, t': Tables, a: AssetId) {
    (a in t'.members <==> a in t.members) && (a in t.members ==> t'.members[a] == t.members[a])
  }

  /** The loop over the members: all of `assets` restored, everything else as before. */
  ghost predicate Restored(t: Tables, t': Tables, assets: set<AssetId>) {
    && t'.assets == t.assets && t'.analyses == t.analyses
    && (forall a :: a in assets ==> RestoredMember(t, t', a))
    && (forall a :: a !in assets ==> SameMember(t, t', a))
    && (forall a, f :: a in assets && KeyedTo(t, a, f) ==> RestoredGroup(t, t', assets, f))
    && (forall f :: (forall a :: a in assets ==> !KeyedTo(t, a, f)) ==> SameGroup(t, t', f))
  }

  lemma RestoreOne(t: Tables, a: AssetId)
    requires GroupIds(t.groups)
    ensures GroupIds(ResetOne(t, a).groups) && Restored(t, ResetOne(t, a), {a})
  {
    var t' := ResetOne(t, a);
    if StoredInput(t, a).Some? {
      var inp := StoredInput(t, a).value;
      AutoIsNotManual(inp.autoKey);
      var id := AutoEventId(inp.autoKey);
      if id in t.groups { AutoIdsInjective(inp.autoKey, t.groups[id].autoKey.value); }
      assert t'.groups[id] == FreshAuto(inp);
      assert KeyedTo(t, a, id);
      forall f | !KeyedTo(t, a, f) ensures SameGroup(t, t', f) {}
    }
  }

  /** A later member of the loop never undoes what an earlier one restored. */
  lemma RestoreBoth(t: Tables, t1: Tables, t2: Tables, a: AssetId, rest: set<AssetId>)
    requires Restored(t, t1, {a}) && Restored(t1, t2, rest) && a !in rest
    ensures Restored(t, t2, {a} + rest)
  {
    assert forall b :: StoredInput(t1, b) == StoredInput(t, b);
    assert forall b, f :: KeyedTo(t1, b, f) == KeyedTo(t, b, f);
    forall b | b in {a} + rest ensures RestoredMember(t, t2, b) {
      if b in rest {
        assert RestoredMember(t1, t2, b);
      } else {
        assert RestoredMember(t, t1, a) && SameMember(t1, t2, a);
      }
    }
    forall b | b !in {a} + rest ensures SameMember(t, t2, b) {
      assert SameMember(t, t1, b) && SameMember(t1, t2, b);
    }
    forall b, f | b in {a} + rest && KeyedTo(t, b, f) ensures RestoredGroup(t, t2, {a} + rest, f) {
      if c :| c in rest && KeyedTo(t1, c, f) {
        assert RestoredGroup(t1, t2, rest, f);
      } else {
        assert b == a && RestoredGroup(t, t1, {a}, f) && SameGroup(t1, t2, f);
      }
    }
    forall f | forall b :: b in {a} + rest ==> !KeyedTo(t, b, f) ensures SameGroup(t, t2, f) {
      assert a in {a} + rest;
      assert forall b :: b in rest ==> b in {a} + rest && !KeyedTo(t1, b, f);
      assert SameGroup(t, t1, f) && SameGroup(t1, t2, f);
    }
  }

  lemma {:induction false} RestoreAll(t: Tables, order: seq<AssetId>, assets: set<AssetId>)
    requires GroupIds(t.groups) && Enumerates(order, assets)
    ensures Restored(t, ResetAll(t, order), assets)
    decreases |order|
  {
    if order == [] {
      assert assets == {};
    } else {
      var a, rest := order[0], assets - {order[0]};
      assert order == [a] + order[1..];
      RestoreOne(t, a);
      RestoreAll(ResetOne(t, a), order[1..], rest);
      RestoreBoth(t, ResetOne(t, a), ResetAll(t, order), a, rest);
      assert {a} + rest == assets;
    }
  }

  /**
   Main result. After a reset of `e`, in whatever order its rows were visited: every former member is
   back in the group of its own key, or has no row if it has no key; every such group is `auto` again,
   even if it had been merged or renamed; no other membership and no other group changed, the event itself
   included if it has an auto key that no former member reports; an event without auto key is retired, and
   nothing names it any more.
   */
  lemma ResetRestores(t: Tables, e: EventId, order: seq<AssetId>)
    requires Valid(t) && Visible(t, e) && Enumerates(order, Rows(t, e))
    ensures var t' := ResetGroup(t, e, order).tables;
            && t'.assets == t.assets && t'.analyses == t.analyses
            && (forall a :: a in Rows(t, e) ==> RestoredMember(t, t', a))
            && (forall a :: a !in Rows(t, e) ==> SameMember(t, t', a))
            && (forall a, f :: a in Rows(t, e) && KeyedTo(t, a, f) ==> RestoredGroup(t, t', Rows(t, e), f))
            && (forall f | f != e || t.groups[e].autoKey.Some? ::
                  (forall a :: a in Rows(t, e) ==> !KeyedTo(t, a, f)) ==> SameGroup(t, t', f))
            && (t.groups[e].autoKey.None? ==>
                  e in t'.groups && t'.groups[e] == t.groups[e].(status := Reset) && Rows(t', e) == {})
  {
    var members := Rows(t, e);
    var t1, t' := ResetAll(t, order), ResetGroup(t, e, order).tables;
    RestoreAll(t, order, members);
    if t.groups[e].autoKey.None? {
      forall a ensures !KeyedTo(t, a, e) {
        if StoredInput(t, a).Some? { AutoIsNotManual(StoredInput(t, a).value.autoKey); }
      }
      assert SameGroup(t, t1, e);
      forall a, f | a in members && KeyedTo(t, a, f) ensures RestoredGroup(t, t', members, f) {
        assert RestoredGroup(t, t1, members, f);
      }
      forall a ensures a !in Rows(t', e) {
        if a in members {
          assert RestoredMember(t, t1, a) && !KeyedTo(t, a, e);
        } else {
          assert SameMember(t, t1, a);
        }
      }
      forall f | f != e && (forall a :: a in members ==> !KeyedTo(t, a, f)) ensures SameGroup(t, t', f) {
        assert SameGroup(t, t1, f);
      }
      forall a ensures (a in members ==> RestoredMember(t, t', a)) && (a !in members ==> SameMember(t, t', a)) {
        assert t'.members == t1.members;
        if a in members { assert RestoredMember(t, t1, a); } else { assert SameMember(t, t1, a); }
      }
    }
  }

  /**
   A reset event with an auto key is automatic again, its title included, exactly if it was automatic before or
   a former member still reports that key; otherwise its manual title stays.
   */
  lemma ResetMakesAutomaticIff(t: Tables, e: EventId, order: seq<AssetId>)
    requires Valid(t) && Visible(t, e) && Enumerates(order, Rows(t, e)) && t.groups[e].autoKey.Some?
    ensures var t' := ResetGroup(t, e, order).tables;
            e in t'.groups && (t'.groups[e].status == Auto <==>
                                 t.groups[e].status == Auto || exists a :: a in Rows(t, e) && KeyedTo(t, a, e))
            && (t'.groups[e].status != Auto ==> t'.groups[e] == t.groups[e])
  {
    ResetRestores(t, e, order);
    var t' := ResetGroup(t, e, order).tables;
    if a :| a in Rows(t, e) && KeyedTo(t, a, e) {
      assert RestoredGroup(t, t', Rows(t, e), e);
    } else {
      assert SameGroup(t, t', e);
    }
  }

  /** In two different visiting orders, a reset leaves the same memberships and the same statuses. */
  lemma ResetOrderOnlyAffectsTitles(t: Tables, e: EventId, order: seq<AssetId>, order': seq<AssetId>)
    requires Valid(t) && Visible(t, e) && Enumerates(order, Rows(t, e)) && Enumerates(order', Rows(t, e))
    ensures var u, v := ResetGroup(t, e, order).tables, ResetGroup(t, e, order').tables;
            && u.members == v.members && u.groups.Keys == v.groups.Keys
            && forall f :: f in u.groups ==>
                 u.groups[f].status == v.groups[f].status && u.groups[f].autoKey == v.groups[f].autoKey
  {
    var u, v := ResetGroup(t, e, order).tables, ResetGroup(t, e, order').tables;
    var members := Rows(t, e);
    ResetRestores(t, e, order);
    ResetRestores(t, e, order');
    forall a ensures (a in u.members <==> a in v.members) && (a in u.members ==> u.members[a] == v.members[a]) {
      if a in members { assert RestoredMember(t, u, a) && RestoredMember(t, v, a); }
      else { assert SameMember(t, u, a) && SameMember(t, v, a); }
    }
    assert u.members == v.members;
    forall f ensures (f in u.groups <==> f in v.groups)
               && (f in u.groups ==>
                      u.groups[f].status == v.groups[f].status && u.groups[f].autoKey == v.groups[f].autoKey)
    {
      if a :| a in members && KeyedTo(t, a, f) {
        RestoredStatus(t, u, members, f);
        RestoredStatus(t, v, members, f);
      } else if f != e {
        assert SameGroup(t, u, f) && SameGroup(t, v, f);
      } else {
        RestoreAll(t, order, members);
        RestoreAll(t, order', members);
        assert SameGroup(t, ResetAll(t, order), e) && SameGroup(t, ResetAll(t, order'), e);
      }
    }
  }

  lemma RestoredStatus(t: Tables, t': Tables, assets: set<AssetId>, f: EventId)
    requires RestoredGroup(t, t', assets, f)
    ensures t'.groups[f].status == Auto && t'.groups[f].autoKey.Some? && AutoEventId(t'.groups[f].autoKey.value) == f
    ensures forall k :: AutoEventId(k) == f ==> t'.groups[f].autoKey == Some(k)
  {
    forall k | AutoEventId(k) == f ensures t'.groups[f].autoKey == Some(k) {
      AutoIdsInjective(k, t'.groups[f].autoKey.value);
    }
  }
}
