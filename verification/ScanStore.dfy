/** The local store and the scan loop that writes it, page by page; and the summary a finished run stores. */
module ScanStore {
  import opened PyText
  import opened ScanRun

  datatype Summary = Summary(processed: nat, skipped: nat, errors: nat, byCategory: map<string, nat>,
      intended: map<string, nat>)

  datatype RunRow = RunRow(status: string, summary: Option<Summary>)

  // ---- The listing, in pages ----

  /** One page of the listing from `start`, and where the next begins. */
  function ListAssets(listing: seq<Asset>, start: nat, size: nat): (seq<Asset>, Option<nat>) {
    var end := start + size;
    var page := if start >= |listing| then [] else if end >= |listing| then listing[start..] else listing[start..end];
    (page, if end < |listing| then Some(end) else None)
  }

  /** The assets of the pages from `start` on, following the tokens. */
  function Pages(listing: seq<Asset>, start: nat, size: nat): seq<Asset>
    requires size >= 1
    decreases |listing| - start
  {
    var (page, next) := ListAssets(listing, start, size);
    if next.None? then page else page + Pages(listing, next.value, size)
  }

  /** Whatever the page size, the pages concatenate to the listing. */
  lemma {:induction false} PagesMakeListing(listing: seq<Asset>, start: nat, size: nat)
    requires size >= 1 && start <= |listing|
    ensures Pages(listing, start, size) == listing[start..]
    decreases |listing| - start
  {
    if start + size < |listing| {
      PagesMakeListing(listing, start + size, size);
      assert listing[start..] == listing[start..start + size] + listing[start + size..];
    }
  }

  /** A page continues the listing where it starts; it is full and followed by another, or the last one. */
  lemma PageAt(listing: seq<Asset>, start: nat, size: nat)
    requires size >= 1 && start <= |listing|
    ensures var (page, next) := ListAssets(listing, start, size);
            && listing[..start] + page == listing[..start + |page|]
            && (if start + size < |listing| then |page| == size && next == Some(start + size)
                else listing[..start + |page|] == listing && next == None)
  {
  }

  // ---- The summary ----

  /** `summarize_scan`: count plans, their categories and their actions. */
  method Summarize(plans: seq<Plan>, skipped: nat, errors: nat) returns (s: Summary)
    ensures Summarizes(s, plans, skipped, errors)
  {
    var processed := 0;
    var byCategory: map<string, nat>, intended: map<string, nat> := map[], map[];
    for i := 0 to |plans|
      invariant processed == i
      invariant forall c :: (c in byCategory <==> PlansOf(plans[..i], c) > 0)
                            && (c in byCategory ==> byCategory[c] == PlansOf(plans[..i], c))
      invariant forall n :: (n in intended <==> Planned(plans[..i], n) > 0)
                            && (n in intended ==> intended[n] == Planned(plans[..i], n))
    {
      var plan := plans[i];
      assert plans[..i + 1][..i] == plans[..i];
      processed := processed + 1;
      byCategory := byCategory[plan.category :=
          (if plan.category in byCategory then byCategory[plan.category] else 0) + 1];
      intended := CountNames(intended, plan.actions);
    }
    assert plans[..|plans|] == plans;
    return Summary(processed, skipped, errors, byCategory, intended);
  }

  method CountNames(counts: map<string, nat>, names: seq<string>) returns (r: map<string, nat>)
    requires forall n :: n in counts ==> counts[n] > 0
    ensures forall n :: (n in r <==> n in counts || Occurrences(names, n) > 0)
    ensures forall n :: n in r ==> r[n] == (if n in counts then counts[n] else 0) + Occurrences(names, n)
  {
    r := counts;
    for i := 0 to |names|
      invariant forall n :: n in r <==> n in counts || Occurrences(names[..i], n) > 0
      invariant forall n :: n in r ==> r[n] == (if n in counts then counts[n] else 0) + Occurrences(names[..i], n)
    {
      assert names[..i + 1][..i] == names[..i];
      r := r[names[i] := (if names[i] in r then r[names[i]] else 0) + 1];
    }
    assert names[..|names|] == names;
  }

  // ---- Fresh run ids ----

  predicate RunsBelow(t: Tables, bound: nat) {
    && (forall i :: 0 <= i < |t.classifications| ==> t.classifications[i].run < bound)
    && (forall i :: 0 <= i < |t.actions| ==> t.actions[i].run < bound)
    && (forall i :: 0 <= i < |t.errors| ==> t.errors[i].run < bound)
  }

  lemma {:induction false} NoClassifications(rows: seq<ClassificationRow>, run: nat, c: string)
    requires forall i :: 0 <= i < |rows| ==> rows[i].run < run
    ensures ProcessedRows(rows, run) == 0 && CategoryRows(rows, run, c) == 0
  {
    if rows != [] { NoClassifications(rows[..|rows| - 1], run, c); }
  }

  lemma {:induction false} NoActions(rows: seq<ActionRow>, run: nat, n: string)
    requires forall i :: 0 <= i < |rows| ==> rows[i].run < run
    ensures ActionRows(rows, run, n) == 0
  {
    if rows != [] { NoActions(rows[..|rows| - 1], run, n); }
  }

  lemma {:induction false} NoErrors(rows: seq<ErrorRow>, run: nat)
    requires forall i :: 0 <= i < |rows| ==> rows[i].run < run
    ensures ErrorRows(rows, run) == 0
  {
    if rows != [] { NoErrors(rows[..|rows| - 1], run); }
  }

  lemma {:induction false} ActBelow(p: Progress, run: nat, a: Asset, plan: Plan, results: nat -> ActionResult, k: nat)
    requires k <= |plan.actions| && RunsBelow(p.tables, run + 1)
    ensures RunsBelow(Act(p, run, a, plan, results, k).tables, run + 1)
  {
    if k > 0 { ActBelow(p, run, a, plan, results, k - 1); }
  }

  lemma {:induction false} VisitAllBelow(s: Scan, run: nat, listing: seq<Asset>, w: World)
    requires RunsBelow(s.tables, run + 1)
    ensures RunsBelow(VisitAll(s, run, listing, w).tables, run + 1)
  {
    if listing != [] {
      var init, a := listing[..|listing| - 1], listing[|listing| - 1];
      VisitAllBelow(s, run, init, w);
      var now := VisitAll(s, run, init, w);
      if w.classify(now.tally.listed).Category? {
        var plan := Decide(w.config, w.classify(now.tally.listed).category, a.mediaType);
        ActBelow(Decided(now, run, a, plan), run, a, plan, ResultsOf(w, now.tally.listed), |plan.actions|);
      }
    }
  }

  /** The stored summary is what the rows of the run say. */
  ghost predicate SummaryMatchesRows(s: Summary, t: Tables, run: nat) {
    && s.processed == ProcessedRows(t.classifications, run)
    && (forall c :: (c in s.byCategory <==> CategoryRows(t.classifications, run, c) > 0)
                    && (c in s.byCategory ==> s.byCategory[c] == CategoryRows(t.classifications, run, c)))
    && (forall n :: (n in s.intended <==> ActionRows(t.actions, run, n) > 0)
                    && (n in s.intended ==> s.intended[n] == ActionRows(t.actions, run, n)))
    && s.errors == ErrorRows(t.errors, run)
  }

  /** What `Summarize` answers. */
  ghost predicate Summarizes(s: Summary, plans: seq<Plan>, skipped: nat, errors: nat) {
    && s.processed == |plans| && s.skipped == skipped && s.errors == errors
    && (forall c :: (c in s.byCategory <==> PlansOf(plans, c) > 0)
                    && (c in s.byCategory ==> s.byCategory[c] == PlansOf(plans, c)))
    && (forall n :: (n in s.intended <==> Planned(plans, n) > 0)
                    && (n in s.intended ==> s.intended[n] == Planned(plans, n)))
  }

  // ---- The store ----

  class StateStore {
    var assets: map<string, AssetRow>
    var classifications: seq<ClassificationRow>
    var actions: seq<ActionRow>
    var errors: seq<ErrorRow>
    var runs: map<nat, RunRow>
    var nextRun: nat

    constructor ()
      ensures Valid() && View() == Tables(map[], [], [], []) && runs == map[]
    {
      assets, classifications, actions, errors, runs, nextRun := map[], [], [], [], map[], 1;
    }

    ghost function View(): Tables
      reads this
    {
      Tables(assets, classifications, actions, errors)
    }

    /** Run ids are handed out in order and never again. */
    ghost predicate Valid()
      reads this
    {
      RunsBelow(View(), nextRun) && forall r :: r in runs ==> r < nextRun
    }

    method StartRun() returns (run: nat)
      modifies `runs, `nextRun
      ensures run == old(nextRun) && nextRun == run + 1 && runs == old(runs)[run := RunRow("running", None)]
    {
      run := nextRun;
      nextRun := nextRun + 1;
      runs := runs[run := RunRow("running", None)];
    }

    method Upsert(a: Asset)
      modifies `assets
      ensures View() == UpsertAsset(old(View()), a)
    {
      var processed := a.id in assets && assets[a.id].processed;
      assets := assets[a.id := AssetRow(a.mediaType, a.checksum, processed)];
    }

    method RecordError(run: nat, a: Asset, stage: string, code: string)
      modifies `errors
      ensures View() == AddError(old(View()), run, a, stage, code)
    {
      errors := errors + [ErrorRow(run, a.id, stage, code)];
    }

    method RecordClassificationRun(run: nat, a: Asset, category: string)
      modifies `assets, `classifications
      ensures var t := UpsertAsset(old(View()), a);
              var row := ClassificationRow(run, a.id, category);
              View() == MarkProcessed(t.(classifications := t.classifications + [row]), a)
    {
      Upsert(a);
      classifications := classifications + [ClassificationRow(run, a.id, category)];
      assets := assets[a.id := assets[a.id].(processed := true)];
    }

    method RecordActionRun(run: nat, a: Asset, name: string, success: bool, error: Option<string>)
      modifies `actions
      ensures View() == old(View()).(actions := old(actions) + [ActionRow(run, a.id, name, success, error)])
    {
      actions := actions + [ActionRow(run, a.id, name, success, error)];
    }

    /** One candidate, the n-th of the listing: classify it, or record why that failed; then decide and act. */
    method TakeUp(run: nat, a: Asset, n: nat, w: World, plans: seq<Plan>, errorCount: nat, ghost tally: Tally)
      returns (plans': seq<Plan>, errorCount': nat)
      requires tally.plans == plans && tally.errors == errorCount && tally.listed == n
      modifies `assets, `classifications, `actions, `errors
      ensures var s := Classify(Scan(old(View()), tally), run, a, w);
              View() == s.tables && plans' == s.tally.plans && errorCount' == s.tally.errors
    {
      plans', errorCount' := plans, errorCount;
      match w.classify(n)
      case Fault(stage, code) =>
        errorCount' := errorCount' + 1;
        Upsert(a);
        RecordError(run, a, stage, code);
      case Category(category) =>
        var plan := Decide(w.config, category, a.mediaType);
        ghost var t := View();
        RecordClassificationRun(run, a, category);
        plans' := plans' + [plan];
        if plan.error.Some? {
          errorCount' := errorCount' + 1;
          RecordError(run, a, "decision", plan.error.value);
        }
        ghost var p := Decided(Scan(t, tally), run, a, plan);
        for i := 0 to |plan.actions|
          invariant Progress(View(), errorCount') == Act(p, run, a, plan, ResultsOf(w, n), i)
        {
          var result := w.execute(n, i);
          RecordActionRun(run, a, plan.actions[i], result.success, result.error);
          if !result.success {
            errorCount' := errorCount' + 1;
            RecordError(run, a, "action", ErrorCode(result));
          }
        }
    }

    method Needs(a: Asset, reprocess: bool) returns (needed: bool)
      ensures needed == NeedsProcessing(View(), a, reprocess)
    {
      if reprocess { return true; }
      if a.id !in assets { return true; }
      if !assets[a.id].processed { return true; }
      var stored := assets[a.id].checksum;
      if a.checksum.None? { return false; }
      if stored.None? { return true; }
      return stored != a.checksum;
    }

    /**
     A whole scan. `None` is the `ValueError` of a page size below 1, which leaves the run unfinished.
     Otherwise every listed asset is visited once, in order, whatever the page size, and the stored summary
     says what the rows of the run say.
     */
    method RunScan(listing: seq<Asset>, pageSize: int, w: World) returns (run: nat, summary: Option<Summary>)
      requires Valid()
      modifies this
      ensures Valid() && run == old(nextRun) && (summary.None? <==> pageSize < 1)
      ensures summary.None? ==> View() == old(View()) && runs == old(runs)[run := RunRow("running", None)]
      ensures summary.Some? ==>
                var s := VisitAll(Scan(old(View()), NO_TALLY), run, listing, w);
                && View() == s.tables && summary.value.skipped == s.tally.skipped
                && SummaryMatchesRows(summary.value, View(), run)
                && runs == old(runs)[run :=
                    RunRow(if ErrorRows(errors, run) == 0 then "succeeded" else "completed_with_errors", summary)]
    {
      run := StartRun();
      if pageSize < 1 { return run, None; }
      var done := ScanAndSummarize(listing, pageSize, w, run);
      runs := runs[run := RunRow(if done.errors == 0 then "succeeded" else "completed_with_errors", Some(done))];
      return run, Some(done);
    }

    /** The scan and its summary, under a fresh run id. */
    method ScanAndSummarize(listing: seq<Asset>, pageSize: nat, w: World, run: nat) returns (done: Summary)
      requires pageSize >= 1 && RunsBelow(View(), run)
      modifies `assets, `classifications, `actions, `errors
      ensures var s := VisitAll(Scan(old(View()), NO_TALLY), run, listing, w);
              View() == s.tables && done.skipped == s.tally.skipped
      ensures SummaryMatchesRows(done, View(), run) && RunsBelow(View(), run + 1)
    {
      ghost var t := View();
      var plans, errorCount, skipped := ScanPages(listing, pageSize, w, run);
      done := Summarize(plans, skipped, errorCount);
      assert Agrees(t, run, [], 0) by {
        NoErrors(t.errors, run);
        NoClassifications(t.classifications, run, "");
        forall c ensures CategoryRows(t.classifications, run, c) == 0 { NoClassifications(t.classifications, run, c); }
        forall n ensures ActionRows(t.actions, run, n) == 0 { NoActions(t.actions, run, n); }
      }
      VisitAllAgrees(t, run, listing, w);
      VisitAllBelow(Scan(t, NO_TALLY), run, listing, w);
    }

    /** The scanner's loop over the pages, with what the run does for each asset it yields. */
    method ScanPages(listing: seq<Asset>, pageSize: nat, w: World, run: nat)
      returns (plans: seq<Plan>, errorCount: nat, skipped: nat)
      requires pageSize >= 1
      modifies `assets, `classifications, `actions, `errors
      ensures var s := VisitAll(Scan(old(View()), NO_TALLY), run, listing, w);
              View() == s.tables && plans == s.tally.plans && errorCount == s.tally.errors && skipped == s.tally.skipped
    {
      ghost var first, yielded := Scan(View(), NO_TALLY), 0;
      plans, errorCount, skipped := [], 0, 0;
      var start := 0;
      while true
        invariant start <= |listing|
        invariant Scan(View(), Tally(plans, errorCount, skipped, yielded, start)) ==
            VisitAll(first, run, listing[..start], w)
        decreases |listing| - start
      {
        var (page, next) := ListAssets(listing, start, pageSize);
        PageAt(listing, start, pageSize);
        plans, errorCount, skipped, yielded :=
          VisitPage(page, start, w, run, plans, errorCount, skipped, Tally(plans, errorCount, skipped, yielded, start));
        VisitAllConcat(first, run, listing[..start], page, w);
        if next.None? { return; }
        start := next.value;
      }
    }

    /** One page, whose first asset is the `start`-th of the listing. */
    method VisitPage(page: seq<Asset>, start: nat, w: World, run: nat,
                     plans: seq<Plan>, errorCount: nat, skipped: nat, ghost tally: Tally)
      returns (plans': seq<Plan>, errorCount': nat, skipped': nat, ghost yielded: nat)
      requires tally.plans == plans && tally.errors == errorCount && tally.skipped == skipped && tally.listed == start
      modifies `assets, `classifications, `actions, `errors
      ensures Scan(View(), Tally(plans', errorCount', skipped', yielded, start + |page|)) ==
                VisitAll(Scan(old(View()), tally), run, page, w)
    {
      ghost var first := Scan(View(), tally);
      plans', errorCount', skipped', yielded := plans, errorCount, skipped, tally.yielded;
      for i := 0 to |page|
        invariant Scan(View(), Tally(plans', errorCount', skipped', yielded, start + i)) ==
            VisitAll(first, run, page[..i], w)
      {
        assert page[..i + 1][..i] == page[..i];
        ghost var now := Tally(plans', errorCount', skipped', yielded, start + i);
        if !w.matches(page[i]) { continue; }
        var needed := Needs(page[i], w.reprocess);
        if needed {
          plans', errorCount' := TakeUp(run, page[i], start + i, w, plans', errorCount', now);
          yielded := yielded + 1;
        } else {
          skipped' := skipped' + 1;
        }
      }
      assert page[..|page|] == page;
    }
  }

  /** Visiting page after page is visiting the whole listing. */
  lemma {:induction false} VisitAllConcat(s: Scan, run: nat, a: seq<Asset>, b: seq<Asset>, w: World)
    ensures VisitAll(VisitAll(s, run, a, w), run, b, w) == VisitAll(s, run, a + b, w)
  {
    if b == [] {
      assert a + b == a;
    } else {
      var init := b[..|b| - 1];
      VisitAllConcat(s, run, a, init, w);
      assert (a + b)[..|a + b| - 1] == a + init;
    }
  }
}
