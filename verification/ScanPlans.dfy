/** What a scan writes for each listed asset, row by row, as the policies of the configuration ask for it. */
module ScanPlans {
  import opened PyText
  import opened ScanRun

  // ---- What the policies ask for ----

  /** The policy table has an entry for the category and the media type, and it lists these actions. */
  ghost predicate Lists(c: Config, category: string, mediaType: string, names: seq<string>) {
    category in c.policies && mediaType in c.policies[category] && c.policies[category][mediaType] == names
  }

  /** The actions of a classified asset, and the codes of the decision errors it comes with: one or none. */
  ghost predicate Asked(c: Config, category: string, mediaType: string, names: seq<string>, codes: seq<string>) {
    || (category in c.categories && names != [] && codes == [] && Lists(c, category, mediaType, names))
    || (names == ["no_action"] && category !in c.categories && codes == ["unknown_category"])
    || (names == ["no_action"] && category in c.categories && Lists(c, category, mediaType, [])
        && codes == ["invalid_policy"])
    || (names == ["no_action"] && category in c.categories && (forall l :: !Lists(c, category, mediaType, l))
        && codes == ["missing_policy"])
  }

  /** Passes the filters, and is new, unfinished, changed since, or asked for again. */
  ghost predicate Due(t: Tables, a: Asset, w: World) {
    && w.matches(a)
    && (w.reprocess || !ProcessedBefore(t, a) || (a.checksum.Some? && t.assets[a.id].checksum != a.checksum))
  }

  // ---- The rows of one asset ----

  function ActionLog(run: nat, id: string, names: seq<string>, results: nat -> ActionResult): (r: seq<ActionRow>)
    ensures |r| == |names|
  {
    seq(|names|, i requires 0 <= i < |names| =>
      ActionRow(run, id, names[i], results(i).success, results(i).error))
  }

  /** One error row for each of the first `k` actions that failed, in order. */
  function FailureLog(run: nat, id: string, results: nat -> ActionResult, k: nat): seq<ErrorRow> {
    if k == 0 then []
    else
      var code := if results(k - 1).error in {None, Some("")} then "action_failed" else results(k - 1).error.value;
      FailureLog(run, id, results, k - 1)
      + (if results(k - 1).success then [] else [ErrorRow(run, id, "action", code)])
  }

  ghost function DecisionLog(run: nat, id: string, codes: seq<string>): seq<ErrorRow> {
    seq(|codes|, i requires 0 <= i < |codes| => ErrorRow(run, id, "decision", codes[i]))
  }

  /** What a listed asset leaves behind: `s` is the scan before it, `s'` after it. */
  ghost predicate Wrote(s: Scan, s': Scan, run: nat, a: Asset, w: World) {
    var t, t', n := s.tables, s'.tables, s.tally.listed;
    && s'.tally.yielded == s.tally.yielded + (if Due(t, a, w) then 1 else 0)
    && s'.tally.skipped == s.tally.skipped + (if w.matches(a) && !Due(t, a, w) then 1 else 0)
    && if !Due(t, a, w) then t' == t && s'.tally.plans == s.tally.plans && s'.tally.errors == s.tally.errors
       else match w.classify(n)
         case Fault(stage, code) =>
           && t' == Tables(t.assets[a.id := AssetRow(a.mediaType, a.checksum, ProcessedBefore(t, a))],
                           t.classifications, t.actions, t.errors + [ErrorRow(run, a.id, stage, code)])
           && s'.tally.plans == s.tally.plans && s'.tally.errors == s.tally.errors + 1
         case Category(category) =>
           exists names, codes :: Asked(w.config, category, a.mediaType, names, codes)
                                  && WroteActions(s, s', run, a, w, names, codes)
  }

  /** The rows of a classified asset that is given these actions and decision errors. */
  ghost predicate WroteActions(s: Scan, s': Scan, run: nat, a: Asset, w: World, names: seq<string>, codes: seq<string>)
    requires w.classify(s.tally.listed).Category?
  {
    var t, results, category := s.tables, ResultsOf(w, s.tally.listed), w.classify(s.tally.listed).category;
    var errors := DecisionLog(run, a.id, codes) + FailureLog(run, a.id, results, |names|);
    && s'.tables == Tables(t.assets[a.id := AssetRow(a.mediaType, a.checksum, true)],
                           t.classifications + [ClassificationRow(run, a.id, category)],
                           t.actions + ActionLog(run, a.id, names, results), t.errors + errors)
    && s'.tally.errors == s.tally.errors + |errors|
    && |s'.tally.plans| == |s.tally.plans| + 1 && s'.tally.plans[..|s.tally.plans|] == s.tally.plans
    && s'.tally.plans[|s.tally.plans|].category == category && s'.tally.plans[|s.tally.plans|].actions == names
  }

  // ---- One visit ----

  /** The policies determine actions and decision errors. */
  lemma AskedUnique(c: Config, category: string, mediaType: string,
                    names: seq<string>, codes: seq<string>, names': seq<string>, codes': seq<string>)
    requires Asked(c, category, mediaType, names, codes) && Asked(c, category, mediaType, names', codes')
    ensures names == names' && codes == codes'
  {
    if category in c.categories && category in c.policies && mediaType in c.policies[category] {
      assert Lists(c, category, mediaType, c.policies[category][mediaType]);
    }
  }

  lemma {:induction false} ActWrites(p: Progress, run: nat, a: Asset, plan: Plan, results: nat -> ActionResult, k: nat)
    requires k <= |plan.actions|
    ensures var q, log, failed := Act(p, run, a, plan, results, k), ActionLog(run, a.id, plan.actions[..k], results),
                FailureLog(run, a.id, results, k);
            && q.tables == Tables(p.tables.assets, p.tables.classifications, p.tables.actions + log,
                                  p.tables.errors + failed)
            && q.errors == p.errors + |failed|
  {
    if k > 0 {
      ActWrites(p, run, a, plan, results, k - 1);
      var q, r := Act(p, run, a, plan, results, k - 1), results(k - 1);
      var log, row := ActionLog(run, a.id, plan.actions[..k - 1], results),
          ActionRow(run, a.id, plan.actions[k - 1], r.success, r.error);
      assert ActionLog(run, a.id, plan.actions[..k], results) == log + [row];
      assert q.tables.actions + [row] == p.tables.actions + (log + [row]);
      FailureNext(p.tables.errors, run, a, results, k - 1);
    } else {
      assert p.tables.actions + [] == p.tables.actions && p.tables.errors + [] == p.tables.errors;
    }
  }

  lemma FailureNext(errors: seq<ErrorRow>, run: nat, a: Asset, results: nat -> ActionResult, k: nat)
    ensures var r, log := results(k), FailureLog(run, a.id, results, k);
            errors + FailureLog(run, a.id, results, k + 1) ==
              errors + log + (if r.success then [] else [ErrorRow(run, a.id, "action", ErrorCode(r))])
  {
  }

  /** The decision errors of a plan. */
  ghost function CodesOf(plan: Plan): seq<string> {
    if plan.error.None? then [] else [plan.error.value]
  }

  /** The plan of a classified asset is the one its policy asks for. */
  lemma PlanIsAsked(c: Config, category: string, mediaType: string, plan: Plan)
    requires plan == Decide(c, category, mediaType)
    ensures Asked(c, category, mediaType, plan.actions, CodesOf(plan))
  {
    if category in c.policies && mediaType in c.policies[category] {
      assert Lists(c, category, mediaType, c.policies[category][mediaType]);
    }
  }

  lemma ClassifiedWrites(s: Scan, run: nat, a: Asset, w: World)
    requires w.classify(s.tally.listed).Category?
    ensures exists names, codes ::
              Asked(w.config, w.classify(s.tally.listed).category, a.mediaType, names, codes)
              && WroteActions(s, Classify(s, run, a, w), run, a, w, names, codes)
  {
    var category := w.classify(s.tally.listed).category;
    var plan := Decide(w.config, category, a.mediaType);
    PlanIsAsked(w.config, category, a.mediaType, plan);
    PlanWrites(s, run, a, w, plan, CodesOf(plan));
    assert Asked(w.config, category, a.mediaType, plan.actions, CodesOf(plan))
        && WroteActions(s, Classify(s, run, a, w), run, a, w, plan.actions, CodesOf(plan));
  }

  /** What carrying out a plan writes. */
  lemma PlanWrites(s: Scan, run: nat, a: Asset, w: World, plan: Plan, codes: seq<string>)
    requires w.classify(s.tally.listed).Category?
    requires plan == Decide(w.config, w.classify(s.tally.listed).category, a.mediaType)
    requires codes == CodesOf(plan)
    ensures WroteActions(s, Classify(s, run, a, w), run, a, w, plan.actions, codes)
  {
    CarriedOut(s, run, a, plan, codes, ResultsOf(w, s.tally.listed));
  }

  lemma CarriedOut(s: Scan, run: nat, a: Asset, plan: Plan, codes: seq<string>, results: nat -> ActionResult)
    requires codes == CodesOf(plan)
    ensures var t, q := s.tables, Act(Decided(s, run, a, plan), run, a, plan, results, |plan.actions|);
            var errors := DecisionLog(run, a.id, codes) + FailureLog(run, a.id, results, |plan.actions|);
            q == Progress(Tables(t.assets[a.id := AssetRow(a.mediaType, a.checksum, true)],
                                 t.classifications + [ClassificationRow(run, a.id, plan.category)],
                                 t.actions + ActionLog(run, a.id, plan.actions, results), t.errors + errors),
                          s.tally.errors + |errors|)
  {
    var names := plan.actions;
    DecidedCounts(s, run, a, plan);
    DecidedWrites(s, run, a, plan, codes);
    ActWrites(Decided(s, run, a, plan), run, a, plan, results, |names|);
    assert names[..|names|] == names;
    var log, failed := DecisionLog(run, a.id, codes), FailureLog(run, a.id, results, |names|);
    assert s.tables.errors + log + failed == s.tables.errors + (log + failed);
  }

  lemma DecidedWrites(s: Scan, run: nat, a: Asset, plan: Plan, codes: seq<string>)
    requires codes == CodesOf(plan)
    ensures var p, log := Decided(s, run, a, plan), DecisionLog(run, a.id, codes);
            p.tables.errors == s.tables.errors + log && p.errors == s.tally.errors + |log|
  {
    if plan.error.Some? {
      assert DecisionLog(run, a.id, codes) == [ErrorRow(run, a.id, "decision", plan.error.value)];
    }
  }

  lemma VisitWrites(s: Scan, run: nat, a: Asset, w: World)
    ensures Wrote(s, Visit(s, run, a, w), run, a, w)
  {
    if Due(s.tables, a, w) && w.classify(s.tally.listed).Category? { ClassifiedWrites(s, run, a, w); }
  }

  // ---- Whole runs ----

  /**
   Main result: whatever happened to the assets before it, the k-th listed asset of a scan is taken up exactly
   if it is due, and then writes exactly the rows its classification and its policy ask for: the listed
   actions in their order with the results they had, and `no_action` with one decision error where no policy lists any.
   */
  lemma WritesAsAsked(t: Tables, run: nat, listing: seq<Asset>, w: World, k: nat)
    requires k < |listing|
    ensures var s := VisitAll(Scan(t, NO_TALLY), run, listing[..k], w);
            s.tally.listed == k && Wrote(s, VisitAll(Scan(t, NO_TALLY), run, listing[..k + 1], w), run, listing[k], w)
  {
    var s := VisitAll(Scan(t, NO_TALLY), run, listing[..k], w);
    ListedCount(Scan(t, NO_TALLY), run, listing[..k], w);
    assert listing[..k + 1][..k] == listing[..k];
    VisitWrites(s, run, listing[k], w);
  }

  /** The k-th listed asset was classified, and the row is one of its actions: listed for it, or `no_action`. */
  ghost predicate Justified(row: ActionRow, run: nat, listing: seq<Asset>, w: World, k: nat) {
    && k < |listing| && row.run == run && row.asset == listing[k].id && w.matches(listing[k])
    && w.classify(k).Category?
    && (row.name == "no_action"
        || exists names :: Lists(w.config, w.classify(k).category, listing[k].mediaType, names) && row.name in names)
  }

  /** Main result: no action other than `no_action` is recorded unless the policy of its asset lists it. */
  lemma {:induction false} OnlyListedActions(t: Tables, run: nat, listing: seq<Asset>, w: World, i: nat)
    requires |t.actions| <= i < |VisitAll(Scan(t, NO_TALLY), run, listing, w).tables.actions|
    ensures exists k ::
              Justified(VisitAll(Scan(t, NO_TALLY), run, listing, w).tables.actions[i], run, listing, w, k)
  {
    var n := |listing| - 1;
    if listing != [] {
      var s, s' := VisitAll(Scan(t, NO_TALLY), run, listing[..n], w), VisitAll(Scan(t, NO_TALLY), run, listing, w);
      assert listing[..n + 1] == listing;
      WritesAsAsked(t, run, listing, w, n);
      if i < |s.tables.actions| {
        OnlyListedActions(t, run, listing[..n], w, i);
        var k :| Justified(s.tables.actions[i], run, listing[..n], w, k);
        assert Justified(s'.tables.actions[i], run, listing, w, k);
      } else {
        assert Justified(s'.tables.actions[i], run, listing, w, n);
      }
    }
  }
}
