/**
 A scan of the library from the command line: which assets are taken up, what is recorded for each, and
 the summary of the run against the rows it wrote.
 */
module ScanRun {
  import opened PyText

  // ---- Assets, plans and rows ----

  datatype Asset = Asset(id: string, mediaType: string, checksum: Option<string>)

  datatype AssetRow = AssetRow(mediaType: string, checksum: Option<string>, processed: bool)

  datatype Classified = Category(category: string) | Fault(stage: string, code: string)

  datatype Plan = Plan(category: string, actions: seq<string>, error: Option<string>)

  datatype Config = Config(categories: set<string>, policies: map<string, map<string, seq<string>>>)

  datatype ClassificationRow = ClassificationRow(run: nat, asset: string, category: string)
  datatype ActionRow = ActionRow(run: nat, asset: string, name: string, success: bool, error: Option<string>)
  datatype ErrorRow = ErrorRow(run: nat, asset: string, stage: string, code: string)

  /** The tables of the local store that a scan writes. */
  datatype Tables = Tables(
    assets: map<string, AssetRow>,
    classifications: seq<ClassificationRow>,
    actions: seq<ActionRow>,
    errors: seq<ErrorRow>)

  /** What the scan keeps count of while it runs; `listed` is the number of assets the listing has given so far. */
  datatype Tally = Tally(plans: seq<Plan>, errors: nat, skipped: nat, yielded: nat, listed: nat)

  datatype ActionResult = ActionResult(success: bool, error: Option<string>)

  /**
   Filters and policies, and everything the run meets: `classify(n)` is what the classifier makes of the n-th
   listed asset, and `execute(n, i)` what becomes of the i-th action planned for it.
   */
  datatype World = World(
    matches: Asset -> bool,
    reprocess: bool,
    classify: nat -> Classified,
    config: Config,
    execute: (nat, nat) -> ActionResult)

  // ---- Decisions ----

  function SafePlan(category: string, code: string): Plan {
    Plan(category, ["no_action"], Some(code))
  }

  function Decide(config: Config, category: string, mediaType: string): Plan {
    if category !in config.categories then SafePlan(category, "unknown_category")
    else if category !in config.policies || mediaType !in config.policies[category]
        then SafePlan(category, "missing_policy")
    else if config.policies[category][mediaType] == [] then SafePlan(category, "invalid_policy")
    else Plan(category, config.policies[category][mediaType], None)
  }

  // ---- Incremental processing ----

  function NeedsProcessing(t: Tables, a: Asset, reprocess: bool): bool {
    if reprocess || a.id !in t.assets || !t.assets[a.id].processed then true
    else if a.checksum.None? then false
    else if t.assets[a.id].checksum.None? then true
    else t.assets[a.id].checksum != a.checksum
  }

  /** The upsert keeps `last_processed`. */
  function UpsertAsset(t: Tables, a: Asset): Tables {
    t.(assets := t.assets[a.id := AssetRow(a.mediaType, a.checksum, a.id in t.assets && t.assets[a.id].processed)])
  }

  function MarkProcessed(t: Tables, a: Asset): Tables {
    if a.id in t.assets then t.(assets := t.assets[a.id := t.assets[a.id].(processed := true)]) else t
  }

  function AddError(t: Tables, run: nat, a: Asset, stage: string, code: string): Tables {
    t.(errors := t.errors + [ErrorRow(run, a.id, stage, code)])
  }

  // ---- One asset ----

  /** Tables and error count while the actions of a plan are executed. */
  datatype Progress = Progress(tables: Tables, errors: nat)

  function ErrorCode(r: ActionResult): string {
    if r.error.Some? && r.error.value != "" then r.error.value else "action_failed"
  }

  function ActOnce(p: Progress, run: nat, a: Asset, name: string, r: ActionResult): Progress {
    var t := p.tables.(actions := p.tables.actions + [ActionRow(run, a.id, name, r.success, r.error)]);
    if r.success then Progress(t, p.errors)
    else Progress(AddError(t, run, a, "action", ErrorCode(r)), p.errors + 1)
  }

  /** The first `k` actions of the plan, with the result each of them has. */
  function Act(p: Progress, run: nat, a: Asset, plan: Plan, results: nat -> ActionResult, k: nat): Progress
    requires k <= |plan.actions|
  {
    if k == 0 then p
    else ActOnce(Act(p, run, a, plan, results, k - 1), run, a, plan.actions[k - 1], results(k - 1))
  }

  /** The results of the actions planned for the n-th listed asset. */
  function ResultsOf(w: World, n: nat): nat -> ActionResult {
    (i: nat) => w.execute(n, i)
  }

  datatype Scan = Scan(tables: Tables, tally: Tally)

  /** Tables and error count of a classified asset, before its actions. */
  function Decided(s: Scan, run: nat, a: Asset, plan: Plan): Progress {
    var t := UpsertAsset(s.tables, a);
    var row := ClassificationRow(run, a.id, plan.category);
    var t1 := MarkProcessed(t.(classifications := t.classifications + [row]), a);
    if plan.error.None? then Progress(t1, s.tally.errors)
    else Progress(AddError(t1, run, a, "decision", plan.error.value), s.tally.errors + 1)
  }

  function Classify(s: Scan, run: nat, a: Asset, w: World): Scan {
    var n := s.tally.listed;
    var tally := s.tally.(yielded := s.tally.yielded + 1, listed := n + 1);
    match w.classify(n)
    case Fault(stage, code) =>
      Scan(AddError(UpsertAsset(s.tables, a), run, a, stage, code), tally.(errors := tally.errors + 1))
    case Category(category) =>
      var plan := Decide(w.config, category, a.mediaType);
      var q := Act(Decided(s, run, a, plan), run, a, plan, ResultsOf(w, n), |plan.actions|);
      Scan(q.tables, tally.(plans := tally.plans + [plan], errors := q.errors))
  }

  /** One listed asset: filtered out, skipped as already processed, or taken up. */
  function Visit(s: Scan, run: nat, a: Asset, w: World): Scan {
    var n := s.tally.listed;
    if !w.matches(a) then s.(tally := s.tally.(listed := n + 1))
    else if NeedsProcessing(s.tables, a, w.reprocess) then Classify(s, run, a, w)
    else s.(tally := s.tally.(skipped := s.tally.skipped + 1, listed := n + 1))
  }

  function VisitAll(s: Scan, run: nat, listing: seq<Asset>, w: World): Scan {
    if listing == [] then s
    else Visit(VisitAll(s, run, listing[..|listing| - 1], w), run, listing[|listing| - 1], w)
  }

  const NO_TALLY := Tally([], 0, 0, 0, 0)

  // ---- Counting rows ----

  function ProcessedRows(rows: seq<ClassificationRow>, run: nat): nat {
    if rows == [] then 0
    else ProcessedRows(rows[..|rows| - 1], run) + (if rows[|rows| - 1].run == run then 1 else 0)
  }

  function CategoryRows(rows: seq<ClassificationRow>, run: nat, category: string): nat {
    if rows == [] then 0
    else
      var last := rows[|rows| - 1];
      CategoryRows(rows[..|rows| - 1], run, category) + (if last.run == run && last.category == category then 1 else 0)
  }

  /** All rows of an action, whatever their error codes. */
  function ActionRows(rows: seq<ActionRow>, run: nat, name: string): nat {
    if rows == [] then 0
    else
      var last := rows[|rows| - 1];
      ActionRows(rows[..|rows| - 1], run, name) + (if last.run == run && last.name == name then 1 else 0)
  }

  function ErrorRows(rows: seq<ErrorRow>, run: nat): nat {
    if rows == [] then 0
    else ErrorRows(rows[..|rows| - 1], run) + (if rows[|rows| - 1].run == run then 1 else 0)
  }

  function PlansOf(plans: seq<Plan>, category: string): nat {
    if plans == [] then 0
    else PlansOf(plans[..|plans| - 1], category) + (if plans[|plans| - 1].category == category then 1 else 0)
  }

  function Occurrences(names: seq<string>, name: string): nat {
    if names == [] then 0
    else Occurrences(names[..|names| - 1], name) + (if names[|names| - 1] == name then 1 else 0)
  }

  function Planned(plans: seq<Plan>, name: string): nat {
    if plans == [] then 0
    else Planned(plans[..|plans| - 1], name) + Occurrences(plans[|plans| - 1].actions, name)
  }

  // ---- The summary agrees with the rows ----

  ghost predicate Agrees(t: Tables, run: nat, plans: seq<Plan>, errors: nat) {
    && ProcessedRows(t.classifications, run) == |plans|
    && (forall c :: CategoryRows(t.classifications, run, c) == PlansOf(plans, c))
    && (forall n :: ActionRows(t.actions, run, n) == Planned(plans, n))
    && ErrorRows(t.errors, run) == errors
  }

  lemma ErrorAdded(t: Tables, run: nat, a: Asset, stage: string, code: string)
    ensures ErrorRows(AddError(t, run, a, stage, code).errors, run) == ErrorRows(t.errors, run) + 1
  {
    var rows := AddError(t, run, a, stage, code).errors;
    assert rows[..|rows| - 1] == t.errors;
  }

  lemma ActionAdded(rows: seq<ActionRow>, row: ActionRow, run: nat, name: string)
    ensures ActionRows(rows + [row], run, name) ==
              ActionRows(rows, run, name) + (if row.run == run && row.name == name then 1 else 0)
  {
    assert (rows + [row])[..|rows|] == rows;
  }

  lemma OccurrencesNext(names: seq<string>, n: nat, name: string)
    requires n < |names|
    ensures Occurrences(names[..n + 1], name) == Occurrences(names[..n], name) + (if names[n] == name then 1 else 0)
  {
    assert names[..n + 1][..n] == names[..n];
  }

  lemma ActOnceCounts(p: Progress, run: nat, a: Asset, name: string, r: ActionResult, other: string)
    ensures var q := ActOnce(p, run, a, name, r);
            && q.tables.classifications == p.tables.classifications && q.tables.assets == p.tables.assets
            && ErrorRows(q.tables.errors, run) - q.errors == ErrorRows(p.tables.errors, run) - p.errors
            && ActionRows(q.tables.actions, run, other)
               == ActionRows(p.tables.actions, run, other) + (if name == other then 1 else 0)
  {
    var row := ActionRow(run, a.id, name, r.success, r.error);
    ActionAdded(p.tables.actions, row, run, other);
    if !r.success {
      ErrorAdded(p.tables.(actions := p.tables.actions + [row]), run, a, "action", ErrorCode(r));
    }
  }

  lemma {:induction false} ActCounts(p: Progress, run: nat, a: Asset, plan: Plan, results: nat -> ActionResult,
      k: nat, name: string)
    requires k <= |plan.actions|
    ensures var q := Act(p, run, a, plan, results, k);
            && q.tables.classifications == p.tables.classifications && q.tables.assets == p.tables.assets
            && ErrorRows(q.tables.errors, run) - q.errors == ErrorRows(p.tables.errors, run) - p.errors
            && ActionRows(q.tables.actions, run, name)
               == ActionRows(p.tables.actions, run, name) + Occurrences(plan.actions[..k], name)
  {
    if k > 0 {
      ActCounts(p, run, a, plan, results, k - 1, name);
      ActOnceCounts(Act(p, run, a, plan, results, k - 1), run, a, plan.actions[k - 1], results(k - 1), name);
      OccurrencesNext(plan.actions, k - 1, name);
    }
  }

  lemma ClassificationAdded(rows: seq<ClassificationRow>, row: ClassificationRow, run: nat, category: string)
    ensures ProcessedRows(rows + [row], run) == ProcessedRows(rows, run) + (if row.run == run then 1 else 0)
    ensures CategoryRows(rows + [row], run, category) ==
              CategoryRows(rows, run, category) + (if row.run == run && row.category == category then 1 else 0)
  {
    assert (rows + [row])[..|rows|] == rows;
  }

  lemma PlanAdded(plans: seq<Plan>, plan: Plan, category: string, name: string)
    ensures PlansOf(plans + [plan], category) == PlansOf(plans, category) + (if plan.category == category then 1 else 0)
    ensures Planned(plans + [plan], name) == Planned(plans, name) + Occurrences(plan.actions, name)
  {
    assert (plans + [plan])[..|plans|] == plans;
  }

  lemma DecidedCounts(s: Scan, run: nat, a: Asset, plan: Plan)
    ensures var p := Decided(s, run, a, plan);
            && p.tables.classifications == s.tables.classifications + [ClassificationRow(run, a.id, plan.category)]
            && p.tables.actions == s.tables.actions
            && ErrorRows(p.tables.errors, run) - p.errors == ErrorRows(s.tables.errors, run) - s.tally.errors
            && p.tables.assets == s.tables.assets[a.id := AssetRow(a.mediaType, a.checksum, true)]
  {
    var t := UpsertAsset(s.tables, a);
    var row := ClassificationRow(run, a.id, plan.category);
    var t1 := MarkProcessed(t.(classifications := t.classifications + [row]), a);
    if plan.error.Some? { ErrorAdded(t1, run, a, "decision", plan.error.value); }
  }

  lemma ClassifyAgrees(s: Scan, run: nat, a: Asset, w: World)
    requires Agrees(s.tables, run, s.tally.plans, s.tally.errors)
    ensures var s' := Classify(s, run, a, w); Agrees(s'.tables, run, s'.tally.plans, s'.tally.errors)
  {
    match w.classify(s.tally.listed)
    case Fault(stage, code) => ErrorAdded(UpsertAsset(s.tables, a), run, a, stage, code);
    case Category(category) =>
      var s', plan := Classify(s, run, a, w), Decide(w.config, category, a.mediaType);
      var p, results := Decided(s, run, a, plan), ResultsOf(w, s.tally.listed);
      DecidedCounts(s, run, a, plan);
      var row := ClassificationRow(run, a.id, plan.category);
      assert plan.actions[..|plan.actions|] == plan.actions;
      ActCounts(p, run, a, plan, results, |plan.actions|, "");
      ClassificationAdded(s.tables.classifications, row, run, "");
      forall c ensures CategoryRows(s'.tables.classifications, run, c) == PlansOf(s'.tally.plans, c) {
        ClassificationAdded(s.tables.classifications, row, run, c);
        PlanAdded(s.tally.plans, plan, c, "");
      }
      forall n ensures ActionRows(s'.tables.actions, run, n) == Planned(s'.tally.plans, n) {
        ActCounts(p, run, a, plan, results, |plan.actions|, n);
        PlanAdded(s.tally.plans, plan, "", n);
      }
  }

  lemma {:induction false} VisitAllAgrees(t: Tables, run: nat, listing: seq<Asset>, w: World)
    requires Agrees(t, run, [], 0)
    ensures var s := VisitAll(Scan(t, NO_TALLY), run, listing, w); Agrees(s.tables, run, s.tally.plans, s.tally.errors)
  {
    if listing != [] {
      VisitAllAgrees(t, run, listing[..|listing| - 1], w);
      var s := VisitAll(Scan(t, NO_TALLY), run, listing[..|listing| - 1], w);
      ClassifyAgrees(s, run, listing[|listing| - 1], w);
    }
  }

  // ---- The grouped report ----

  /** How many rows have the key, as in `COUNT(*) ... GROUP BY`; a row without key is not selected. */
  function GroupSize<T, K(==)>(rows: seq<T>, key: T -> Option<K>, k: K): nat {
    if rows == [] then 0
    else GroupSize(rows[..|rows| - 1], key, k) + (if key(rows[|rows| - 1]) == Some(k) then 1 else 0)
  }

  /** The sizes of the groups, summed. */
  function GroupTotal<T, K(==)>(rows: seq<T>, key: T -> Option<K>, ks: seq<K>): nat {
    if ks == [] then 0 else GroupTotal(rows, key, ks[..|ks| - 1]) + GroupSize(rows, key, ks[|ks| - 1])
  }

  /** The groups of the report: all keys there are, each once. */
  ghost predicate Groups<T, K>(rows: seq<T>, key: T -> Option<K>, ks: seq<K>) {
    && (forall i, j :: 0 <= i < j < |ks| ==> ks[i] != ks[j])
    && (forall i :: 0 <= i < |rows| && key(rows[i]).Some? ==> key(rows[i]).value in ks)
  }

  lemma {:induction false} GroupTotalNext<T, K>(rows: seq<T>, key: T -> Option<K>, ks: seq<K>)
    requires rows != [] && forall i, j :: 0 <= i < j < |ks| ==> ks[i] != ks[j]
    ensures var init, k := rows[..|rows| - 1], key(rows[|rows| - 1]);
            GroupTotal(rows, key, ks) == GroupTotal(init, key, ks) + (if k.Some? && k.value in ks then 1 else 0)
    decreases |ks|
  {
    if ks != [] { GroupTotalNext(rows, key, ks[..|ks| - 1]); }
  }

  lemma {:induction false} NothingGrouped<T, K>(key: T -> Option<K>, ks: seq<K>)
    ensures GroupTotal([], key, ks) == 0
  {
    if ks != [] { NothingGrouped(key, ks[..|ks| - 1]); }
  }

  /** The action rows of a run with one name, by their error code. */
  function ActionCode(run: nat, name: string): ActionRow -> Option<Option<string>> {
    (row: ActionRow) => if row.run == run && row.name == name then Some(row.error) else None
  }

  /** The error rows of a run, by stage and code. */
  function ErrorKind(run: nat): ErrorRow -> Option<(string, string)> {
    (row: ErrorRow) => if row.run == run then Some((row.stage, row.code)) else None
  }

  lemma {:induction false} ActionTotals(rows: seq<ActionRow>, run: nat, name: string, codes: seq<Option<string>>)
    requires Groups(rows, ActionCode(run, name), codes)
    ensures GroupTotal(rows, ActionCode(run, name), codes) == ActionRows(rows, run, name)
  {
    if rows == [] {
      NothingGrouped(ActionCode(run, name), codes);
    } else {
      ActionTotals(rows[..|rows| - 1], run, name, codes);
      GroupTotalNext(rows, ActionCode(run, name), codes);
    }
  }

  lemma {:induction false} ErrorTotals(rows: seq<ErrorRow>, run: nat, kinds: seq<(string, string)>)
    requires Groups(rows, ErrorKind(run), kinds)
    ensures GroupTotal(rows, ErrorKind(run), kinds) == ErrorRows(rows, run)
  {
    if rows == [] {
      NothingGrouped(ErrorKind(run), kinds);
    } else {
      ErrorTotals(rows[..|rows| - 1], run, kinds);
      GroupTotalNext(rows, ErrorKind(run), kinds);
    }
  }

  /**
   Main result: in the report of a scan under a fresh run id, the totals of an action, summed over error codes,
   are how often it was planned, and the error totals, summed over stages and codes, the number of errors.
   */
  lemma ReportTotals(t: Tables, run: nat, listing: seq<Asset>, w: World,
                     name: string, codes: seq<Option<string>>, kinds: seq<(string, string)>)
    requires Agrees(t, run, [], 0)
    requires var t' := VisitAll(Scan(t, NO_TALLY), run, listing, w).tables;
             Groups(t'.actions, ActionCode(run, name), codes) && Groups(t'.errors, ErrorKind(run), kinds)
    ensures var s := VisitAll(Scan(t, NO_TALLY), run, listing, w);
            && GroupTotal(s.tables.actions, ActionCode(run, name), codes) == Planned(s.tally.plans, name)
            && GroupTotal(s.tables.errors, ErrorKind(run), kinds) == s.tally.errors
  {
    var s := VisitAll(Scan(t, NO_TALLY), run, listing, w);
    VisitAllAgrees(t, run, listing, w);
    ActionTotals(s.tables.actions, run, name, codes);
    ErrorTotals(s.tables.errors, run, kinds);
  }

  function CountMatching(listing: seq<Asset>, w: World): nat {
    if listing == [] then 0
    else CountMatching(listing[..|listing| - 1], w) + (if w.matches(listing[|listing| - 1]) then 1 else 0)
  }

  /** Assets taken up plus assets skipped are the listed assets that pass the filters. */
  lemma {:induction false} YieldedPlusSkipped(t: Tables, run: nat, listing: seq<Asset>, w: World)
    ensures var tally := VisitAll(Scan(t, NO_TALLY), run, listing, w).tally;
            tally.yielded + tally.skipped == CountMatching(listing, w)
  {
    if listing != [] { YieldedPlusSkipped(t, run, listing[..|listing| - 1], w); }
  }

  // ---- What a run leaves for the next ----

  predicate DistinctIds(listing: seq<Asset>) {
    forall i, j :: 0 <= i < j < |listing| ==> listing[i].id != listing[j].id
  }

  predicate ProcessedBefore(t: Tables, a: Asset) {
    a.id in t.assets && t.assets[a.id].processed
  }

  /** The assets of a listing whose rows a scan has not touched keep them. */
  lemma {:induction false} RowUntouched(s: Scan, run: nat, listing: seq<Asset>, w: World, id: string)
    requires forall i :: 0 <= i < |listing| ==> listing[i].id != id
    ensures var t := VisitAll(s, run, listing, w).tables;
            (id in t.assets <==> id in s.tables.assets) && (id in t.assets ==> t.assets[id] == s.tables.assets[id])
  {
    if listing != [] {
      var init, a := listing[..|listing| - 1], listing[|listing| - 1];
      RowUntouched(s, run, init, w, id);
      ClassifyRow(VisitAll(s, run, init, w), run, a, w);
    }
  }

  /** What taking up an asset does to the asset rows. */
  lemma ClassifyRow(s: Scan, run: nat, a: Asset, w: World)
    ensures var t := Classify(s, run, a, w).tables;
            var processed := w.classify(s.tally.listed).Category? || ProcessedBefore(s.tables, a);
            t.assets == s.tables.assets[a.id := AssetRow(a.mediaType, a.checksum, processed)]
  {
    var n := s.tally.listed;
    if w.classify(n).Category? {
      var plan := Decide(w.config, w.classify(n).category, a.mediaType);
      DecidedCounts(s, run, a, plan);
      ActCounts(Decided(s, run, a, plan), run, a, plan, ResultsOf(w, n), |plan.actions|, "");
    }
  }

  lemma {:induction false} ListedCount(s: Scan, run: nat, listing: seq<Asset>, w: World)
    ensures VisitAll(s, run, listing, w).tally.listed == s.tally.listed + |listing|
  {
    if listing != [] { ListedCount(s, run, listing[..|listing| - 1], w); }
  }

  /**
   Main result: after a scan of distinct assets, a matching asset is taken up again if and only if it was
   taken up, failed to classify, and had never been processed before. (A processed asset whose content has
   changed and whose classification fails is therefore not retried: its new checksum is already stored.)
   */
  lemma {:induction false} LeftForNextRun(t: Tables, run: nat, listing: seq<Asset>, w: World, k: nat)
    requires DistinctIds(listing) && k < |listing| && w.matches(listing[k])
    ensures var a, t' := listing[k], VisitAll(Scan(t, NO_TALLY), run, listing, w).tables;
            NeedsProcessing(t', a, false) <==>
              NeedsProcessing(t, a, w.reprocess) && w.classify(k).Fault? && !ProcessedBefore(t, a)
    decreases |listing|
  {
    var n := |listing| - 1;
    var init, last := listing[..n], listing[n];
    var s := VisitAll(Scan(t, NO_TALLY), run, init, w);
    if k < n {
      LeftForNextRun(t, run, init, w, k);
      VisitSpares(s, run, last, w, listing[k]);
    } else {
      ListedCount(Scan(t, NO_TALLY), run, init, w);
      RowUntouched(Scan(t, NO_TALLY), run, init, w, last.id);
      VisitLeaves(s, run, last, w);
    }
  }

  /** What one visit leaves to be done for its own asset ... */
  lemma VisitLeaves(s: Scan, run: nat, a: Asset, w: World)
    requires w.matches(a)
    ensures NeedsProcessing(Visit(s, run, a, w).tables, a, false) <==>
              NeedsProcessing(s.tables, a, w.reprocess) && w.classify(s.tally.listed).Fault?
                  && !ProcessedBefore(s.tables, a)
  {
    ClassifyRow(s, run, a, w);
  }

  /** ... and that it changes nothing for any other. */
  lemma VisitSpares(s: Scan, run: nat, a: Asset, w: World, b: Asset)
    requires a.id != b.id
    ensures NeedsProcessing(Visit(s, run, a, w).tables, b, false) == NeedsProcessing(s.tables, b, false)
  {
    ClassifyRow(s, run, a, w);
  }

  /** Every asset that the scan takes up classifies, or had been processed before. */
  predicate NothingFailedNew(t: Tables, listing: seq<Asset>, w: World) {
    forall i :: 0 <= i < |listing| && w.matches(listing[i]) && NeedsProcessing(t, listing[i], w.reprocess) ==>
      w.classify(i).Category? || ProcessedBefore(t, listing[i])
  }

  lemma {:induction false} NothingNeeded(t: Tables, run: nat, listing: seq<Asset>, w: World)
    requires forall i :: 0 <= i < |listing| && w.matches(listing[i]) ==> !NeedsProcessing(t, listing[i], w.reprocess)
    ensures VisitAll(Scan(t, NO_TALLY), run, listing, w) ==
              Scan(t, NO_TALLY.(skipped := CountMatching(listing, w), listed := |listing|))
  {
    if listing != [] { NothingNeeded(t, run, listing[..|listing| - 1], w); }
  }

  /** The same filters, and no reprocessing; classifier, policies and actions may behave differently. */
  ghost predicate SecondWorld(w: World, w': World) {
    !w'.reprocess && forall a :: w'.matches(a) == w.matches(a)
  }

  /**
   Main result: a second scan of the same distinct assets takes up nothing if and only if no new asset
   failed in the first.
   */
  lemma SecondRunIdle(t: Tables, run: nat, again: nat, listing: seq<Asset>, w: World, w': World)
    requires DistinctIds(listing) && SecondWorld(w, w')
    ensures var t' := VisitAll(Scan(t, NO_TALLY), run, listing, w).tables;
            VisitAll(Scan(t', NO_TALLY), again, listing, w').tally.yielded == 0 <==> NothingFailedNew(t, listing, w)
    ensures NothingFailedNew(t, listing, w) ==>
              var t' := VisitAll(Scan(t, NO_TALLY), run, listing, w).tables;
              VisitAll(Scan(t', NO_TALLY), again, listing, w') ==
                Scan(t', NO_TALLY.(skipped := CountMatching(listing, w'), listed := |listing|))
  {
    var t' := VisitAll(Scan(t, NO_TALLY), run, listing, w).tables;
    forall i | 0 <= i < |listing| && w.matches(listing[i])
      ensures NeedsProcessing(t', listing[i], false) <==>
                NeedsProcessing(t, listing[i], w.reprocess) && w.classify(i).Fault? && !ProcessedBefore(t, listing[i])
    {
      LeftForNextRun(t, run, listing, w, i);
    }
    if NothingFailedNew(t, listing, w) {
      NothingNeeded(t', again, listing, w');
    } else {
      var i :| 0 <= i < |listing| && w.matches(listing[i]) && NeedsProcessing(t, listing[i], w.reprocess)
               && w.classify(i).Fault? && !ProcessedBefore(t, listing[i]);
      SomethingNeeded(t', again, listing, w', i);
    }
  }

  lemma {:induction false} SomethingNeeded(t: Tables, run: nat, listing: seq<Asset>, w: World, k: nat)
    requires DistinctIds(listing) && k < |listing| && w.matches(listing[k])
        && NeedsProcessing(t, listing[k], w.reprocess)
    ensures VisitAll(Scan(t, NO_TALLY), run, listing, w).tally.yielded > 0
    decreases |listing|
  {
    var n := |listing| - 1;
    var init := listing[..n];
    if k < n {
      SomethingNeeded(t, run, init, w, k);
    } else {
      RowUntouched(Scan(t, NO_TALLY), run, init, w, listing[n].id);
    }
  }

  // ---- A changed asset that is forgotten ----

  const NO_TABLES := Tables(map[], [], [], [])

  /** Every listed asset meets the same classification, and no policy asks for more than a record. */
  function Classifying(result: Classified): World {
    World(_ => true, false, _ => result, Config({}, map[]), (_, _) => ActionResult(true, None))
  }

  /**
   From an empty store: a first run classifies an asset, its content changes, the second run fails to classify
   it, and no later run takes it up, although the category on record is that of the old content.
   */
  lemma ChangedAssetForgotten(id: string, kind: string, before: string, after: string, category: string, code: string)
    requires before != after
    ensures var first, changed := Asset(id, kind, Some(before)), Asset(id, kind, Some(after));
            var s1 := VisitAll(Scan(NO_TABLES, NO_TALLY), 1, [first], Classifying(Category(category)));
            var s2 := VisitAll(Scan(s1.tables, NO_TALLY), 2, [changed], Classifying(Fault("classifier", code)));
            && s1.tally.yielded == 1 && s2.tally.yielded == 1 && s2.tally.errors == 1
            && s2.tables.classifications == [ClassificationRow(1, id, category)]
            && !NeedsProcessing(s2.tables, changed, false)
  {
    var first, changed := Asset(id, kind, Some(before)), Asset(id, kind, Some(after));
    var ok, fails := Classifying(Category(category)), Classifying(Fault("classifier", code));
    var s0 := Scan(NO_TABLES, NO_TALLY);
    var s1 := VisitAll(s0, 1, [first], ok);
    VisitOne(s0, 1, first, ok);
    assert s1 == Classify(s0, 1, first, ok);
    ClassifyRow(s0, 1, first, ok);
    var plan := Decide(ok.config, category, kind);
    DecidedCounts(s0, 1, first, plan);
    ActCounts(Decided(s0, 1, first, plan), 1, first, plan, ResultsOf(ok, 0), |plan.actions|, "");
    VisitOne(Scan(s1.tables, NO_TALLY), 2, changed, fails);
  }

  lemma VisitOne(s: Scan, run: nat, a: Asset, w: World)
    ensures VisitAll(s, run, [a], w) == Visit(s, run, a, w)
  {
    assert [a][..0] == [];
  }
}
