/**
 A scan started from the service: what it writes for each asset to the event tables and to the log tables,
 and the summary of a completed run against the rows it wrote.
 */
module ServiceRun {
  import opened PyText
  import opened EventModel
  import opened EventInvariant
  import opened EventRuns
  import opened EventStore
  import opened Permutations
  import ScanRun
  import ScanStore

  const LOCK := "move_to_locked_folder"

  datatype ActionResult = ActionResult(name: string, dryRun: bool, success: bool)

  /** The step in which an exception escapes that ends the whole run, if any: after the asset row and the warning ... */
  datatype Break = Never | InOcr | InAnalysis | InActions

  /** What the classifier, the OCR, the analysis and the executor come up with for one asset. */
  datatype Outcome =
    | Fault(stage: string, code: string)
    | Broken
    | Seen(warning: Option<string>, ocrError: Option<string>, analysis: Analysis, queues: seq<string>,
           results: seq<ActionResult>, breaks: Break)

  datatype Candidate = Candidate(asset: AssetId, outcome: Outcome)

  /**
   The whole run: whether building its parts fails, what the scanner yields, and whether the listing
   breaks off after that.
   */
  datatype World = World(setupFails: bool, candidates: seq<Candidate>, listingFails: bool)

  datatype ErrorRow = ErrorRow(user: UserId, run: nat, asset: AssetId, stage: string, code: string)
  datatype ActionRow = ActionRow(user: UserId, run: nat, asset: AssetId, result: ActionResult)
  datatype AuditRow = AuditRow(user: UserId, run: nat, action: string, asset: Option<AssetId>)

  datatype Summary = Summary(processed: nat, errors: nat, actions: nat, queues: map<string, nat>)
  datatype RunRow = Running | Completed(summary: Summary) | Failed

  // ---- One asset ----

  predicate Breaks(c: Candidate) {
    c.outcome.Broken? || (c.outcome.Seen? && c.outcome.breaks != Never)
  }

  predicate Classified(c: Candidate) {
    c.outcome.Seen?
  }

  predicate Analysed(c: Candidate) {
    Classified(c) && c.outcome.breaks in {Never, InActions}
  }

  predicate Acted(c: Candidate) {
    Classified(c) && c.outcome.breaks == Never
  }

  /** What the asset does to the event tables: its row, and its analysis if it gets that far. */
  function Rescan(c: Candidate): seq<Op> {
    if c.outcome.Broken? then []
    else [OpUpsertAsset(c.asset)] + (if Analysed(c) then [OpIngest(c.asset, c.outcome.analysis)] else [])
  }

  function OneError(user: UserId, run: nat, asset: AssetId, stage: string, code: Option<string>): seq<ErrorRow> {
    if code.None? then [] else [ErrorRow(user, run, asset, stage, code.value)]
  }

  function Errors(user: UserId, run: nat, c: Candidate): seq<ErrorRow> {
    match c.outcome
    case Fault(stage, code) => OneError(user, run, c.asset, stage, Some(code))
    case Broken => []
    case Seen(warning, ocrError, _, _, _, breaks) =>
      OneError(user, run, c.asset, "extractor", warning)
      + OneError(user, run, c.asset, "ocr", if breaks == InOcr then None else ocrError)
  }

  function ActionRows(user: UserId, run: nat, asset: AssetId, results: seq<ActionResult>): seq<ActionRow> {
    seq(|results|, i requires 0 <= i < |results| => ActionRow(user, run, asset, results[i]))
  }

  function Actions(user: UserId, run: nat, c: Candidate): seq<ActionRow> {
    if Acted(c) then ActionRows(user, run, c.asset, c.outcome.results) else []
  }

  function LockEvent(r: ActionResult): string {
    if r.success && !r.dryRun then "asset.locked" else "asset.locked.attempt"
  }

  function LockAudits(user: UserId, run: nat, asset: AssetId, results: seq<ActionResult>): seq<AuditRow> {
    if results == [] then []
    else
      var last := results[|results| - 1];
      LockAudits(user, run, asset, results[..|results| - 1])
      + (if last.name == LOCK then [AuditRow(user, run, LockEvent(last), Some(asset))] else [])
  }

  function Audits(user: UserId, run: nat, c: Candidate): seq<AuditRow> {
    if Acted(c) then LockAudits(user, run, c.asset, c.outcome.results) else []
  }

  function Queues(c: Candidate): seq<string> {
    if Analysed(c) then c.outcome.queues else []
  }

  // ---- All assets ----

  /** `f` of every candidate, one after the other. */
  function Collect<T>(cs: seq<Candidate>, f: Candidate -> seq<T>): seq<T> {
    if cs == [] then [] else Collect(cs[..|cs| - 1], f) + f(cs[|cs| - 1])
  }

  function ErrorsOf(user: UserId, run: nat): Candidate -> seq<ErrorRow> {
    c => Errors(user, run, c)
  }

  function ActionsOf(user: UserId, run: nat): Candidate -> seq<ActionRow> {
    c => Actions(user, run, c)
  }

  function AuditsOf(user: UserId, run: nat): Candidate -> seq<AuditRow> {
    c => Audits(user, run, c)
  }

  lemma CollectNext<T>(cs: seq<Candidate>, n: nat, f: Candidate -> seq<T>)
    requires n < |cs|
    ensures Collect(cs[..n + 1], f) == Collect(cs[..n], f) + f(cs[n])
  {
    assert cs[..n + 1][..n] == cs[..n];
  }

  lemma RowsNext<T>(rows: seq<T>, cs: seq<Candidate>, n: nat, f: Candidate -> seq<T>)
    requires n < |cs|
    ensures rows + Collect(cs[..n + 1], f) == (rows + Collect(cs[..n], f)) + f(cs[n])
  {
    CollectNext(cs, n, f);
    Regroup(rows, Collect(cs[..n], f), f(cs[n]));
  }

  lemma RunNext(t: Tables, cs: seq<Candidate>, n: nat)
    requires n < |cs|
    ensures Run(t, Collect(cs[..n + 1], Rescan)) == Run(Run(t, Collect(cs[..n], Rescan)), Rescan(cs[n]))
  {
    CollectNext(cs, n, Rescan);
    RunThen(t, Collect(cs[..n], Rescan), Rescan(cs[n]));
  }

  function ClassifiedCount(cs: seq<Candidate>): nat {
    if cs == [] then 0 else ClassifiedCount(cs[..|cs| - 1]) + (if Classified(cs[|cs| - 1]) then 1 else 0)
  }

  function FirstBreak(cs: seq<Candidate>, i: nat): (k: nat)
    requires i <= |cs|
    ensures i <= k <= |cs| && (forall j :: i <= j < k ==> !Breaks(cs[j])) && (k < |cs| ==> Breaks(cs[k]))
    decreases |cs| - i
  {
    if i == |cs| || Breaks(cs[i]) then i else FirstBreak(cs, i + 1)
  }

  /** The candidates the run gets to: all up to the first that breaks it, that one included. */
  function Reached(w: World): seq<Candidate> {
    var k := FirstBreak(w.candidates, 0);
    if w.setupFails then [] else if k < |w.candidates| then w.candidates[..k + 1] else w.candidates
  }

  predicate Completes(w: World) {
    !w.setupFails && !w.listingFails && forall c :: c in w.candidates ==> !Breaks(c)
  }

  // ---- Counting rows ----

  function CountRows<T>(rows: seq<T>, p: T -> bool): nat {
    if rows == [] then 0 else CountRows(rows[..|rows| - 1], p) + (if p(rows[|rows| - 1]) then 1 else 0)
  }

  lemma {:induction false} CountConcat<T>(a: seq<T>, b: seq<T>, p: T -> bool)
    ensures CountRows(a + b, p) == CountRows(a, p) + CountRows(b, p)
  {
    if b == [] {
      assert a + b == a;
    } else {
      CountConcat(a, b[..|b| - 1], p);
      assert (a + b)[..|a + b| - 1] == a + b[..|b| - 1];
    }
  }

  lemma {:induction false} CountAdded<T>(rows: seq<T>, more: seq<T>, p: T -> bool)
    requires forall i :: 0 <= i < |more| ==> p(more[i])
    ensures CountRows(rows + more, p) == CountRows(rows, p) + |more|
  {
    if more == [] {
      assert rows + more == rows;
    } else {
      CountAdded(rows, more[..|more| - 1], p);
      assert (rows + more)[..|rows + more| - 1] == rows + more[..|more| - 1];
    }
  }

  function ErrorOf(run: nat): ErrorRow -> bool {
    (row: ErrorRow) => row.run == run
  }

  function ActionOf(run: nat): ActionRow -> bool {
    (row: ActionRow) => row.run == run
  }

  /** An action row for which this audit event is due. */
  function LockOf(run: nat, asset: AssetId, event: string): ActionRow -> bool {
    (row: ActionRow) => row.run == run && row.asset == asset && row.result.name == "move_to_locked_folder"
        && event == if row.result.dryRun || !row.result.success then "asset.locked.attempt" else "asset.locked"
  }

  function AuditOf(run: nat, asset: AssetId, event: string): AuditRow -> bool {
    (row: AuditRow) => row.run == run && row.asset == Some(asset) && row.action == event
  }

  /** Every row the run collects is a row of the run. */
  lemma {:induction false} RowsOfRun(user: UserId, run: nat, cs: seq<Candidate>)
    ensures forall row :: row in Collect(cs, ErrorsOf(user, run)) ==> row.run == run && row.user == user
    ensures forall row :: row in Collect(cs, ActionsOf(user, run)) ==> row.run == run && row.user == user
  {
    if cs != [] { RowsOfRun(user, run, cs[..|cs| - 1]); }
  }

  // ---- Locked-folder actions are audited ----

  lemma {:induction false} LocksAuditedFor(user: UserId, run: nat, asset: AssetId, results: seq<ActionResult>,
      a: AssetId, event: string)
    ensures CountRows(LockAudits(user, run, asset, results), AuditOf(run, a, event))
         == CountRows(ActionRows(user, run, asset, results), LockOf(run, a, event))
  {
    if results != [] {
      var init, last := results[..|results| - 1], results[|results| - 1];
      LocksAuditedFor(user, run, asset, init, a, event);
      assert ActionRows(user, run, asset, results) == ActionRows(user, run, asset, init)
          + [ActionRow(user, run, asset, last)];
      if last.name != LOCK {
        assert LockAudits(user, run, asset, results) == LockAudits(user, run, asset, init);
      }
    }
  }

  /** For every asset there are as many audited lock events of each kind as action rows that call for one. */
  lemma {:induction false} LocksAudited(user: UserId, run: nat, cs: seq<Candidate>, a: AssetId, event: string)
    ensures CountRows(Collect(cs, AuditsOf(user, run)), AuditOf(run, a, event))
         == CountRows(Collect(cs, ActionsOf(user, run)), LockOf(run, a, event))
  {
    if cs != [] {
      var init, last := cs[..|cs| - 1], cs[|cs| - 1];
      LocksAudited(user, run, init, a, event);
      CountConcat(Collect(init, AuditsOf(user, run)), Audits(user, run, last), AuditOf(run, a, event));
      CountConcat(Collect(init, ActionsOf(user, run)), Actions(user, run, last), LockOf(run, a, event));
      if Acted(last) { LocksAuditedFor(user, run, last.asset, last.outcome.results, a, event); }
    }
  }

  // ---- Counting names ----

  /** `counts` says how often each name occurs, and has no other names. */
  ghost predicate Counts(counts: map<string, nat>, names: seq<string>) {
    forall n :: (n in counts <==> ScanRun.Occurrences(names, n) > 0)
                && (n in counts ==> counts[n] == ScanRun.Occurrences(names, n))
  }

  lemma {:induction false} OccurrencesConcat(a: seq<string>, b: seq<string>, name: string)
    ensures ScanRun.Occurrences(a + b, name) == ScanRun.Occurrences(a, name) + ScanRun.Occurrences(b, name)
  {
    if b == [] {
      assert a + b == a;
    } else {
      OccurrencesConcat(a, b[..|b| - 1], name);
      assert (a + b)[..|a + b| - 1] == a + b[..|b| - 1];
    }
  }

  // ---- The log tables ----

  /** The tables of runs, errors, actions and audited events, shared by all users. */
  class Log {
    var errors: seq<ErrorRow>
    var actions: seq<ActionRow>
    var audits: seq<AuditRow>
    var runs: map<nat, RunRow>

    constructor ()
      ensures errors == [] && actions == [] && audits == [] && runs == map[]
    {
      errors, actions, audits, runs := [], [], [], map[];
    }
  }

  datatype Moment = Moment(tables: Tables, errors: seq<ErrorRow>, actions: seq<ActionRow>, audits: seq<AuditRow>,
      runs: map<nat, RunRow>)

  datatype Tally = Tally(processed: nat, errors: nat, actions: nat, queues: map<string, nat>)

  class ScanRunner {
    const scoped: UserScopedState
    const log: Log
    const run: nat

    constructor (scoped: UserScopedState, log: Log, run: nat)
      ensures this.scoped == scoped && this.log == log && this.run == run
    {
      this.scoped, this.log, this.run := scoped, log, run;
    }

    /** Events and logs of the user at some moment. */
    ghost function Now(): Moment
      reads log, scoped.db
    {
      Moment(scoped.Mine(), log.errors, log.actions, log.audits, log.runs)
    }

    /** What handling the candidates makes of a moment. */
    ghost function After(m: Moment, cs: seq<Candidate>): Moment {
      Moment(Run(m.tables, Collect(cs, Rescan)), m.errors + Collect(cs, ErrorsOf(scoped.userId, run)),
             m.actions + Collect(cs, ActionsOf(scoped.userId, run)), m.audits
                 + Collect(cs, AuditsOf(scoped.userId, run)), m.runs)
    }

    method RecordError(asset: AssetId, stage: string, code: string)
      modifies log`errors
      ensures log.errors == old(log.errors) + [ErrorRow(scoped.userId, run, asset, stage, code)]
    {
      log.errors := log.errors + [ErrorRow(scoped.userId, run, asset, stage, code)];
    }

    method RecordActions(asset: AssetId, results: seq<ActionResult>, actionCount: nat) returns (actionCount': nat)
      modifies log`actions, log`audits
      ensures actionCount' == actionCount + |results|
      ensures log.actions == old(log.actions) + ActionRows(scoped.userId, run, asset, results)
      ensures log.audits == old(log.audits) + LockAudits(scoped.userId, run, asset, results)
    {
      actionCount' := actionCount;
      for i := 0 to |results|
        invariant actionCount' == actionCount + i
        invariant log.actions == old(log.actions) + ActionRows(scoped.userId, run, asset, results[..i])
        invariant log.audits == old(log.audits) + LockAudits(scoped.userId, run, asset, results[..i])
      {
        var r := results[i];
        assert results[..i + 1][..i] == results[..i];
        assert ActionRows(scoped.userId, run, asset, results[..i + 1])
            == ActionRows(scoped.userId, run, asset, results[..i]) + [ActionRow(scoped.userId, run, asset, r)];
        log.actions := log.actions + [ActionRow(scoped.userId, run, asset, r)];
        actionCount' := actionCount' + 1;
        if r.name == LOCK {
          log.audits := log.audits + [AuditRow(scoped.userId, run, LockEvent(r), Some(asset))];
        }
      }
      assert results[..|results|] == results;
    }

    /** An error row if there is something to report. */
    method Report(asset: AssetId, stage: string, code: Option<string>, errors: nat) returns (errors': nat)
      modifies log`errors
      ensures log.errors == old(log.errors) + OneError(scoped.userId, run, asset, stage, code)
      ensures errors' == errors + |OneError(scoped.userId, run, asset, stage, code)|
    {
      errors' := errors;
      if code.Some? {
        errors' := errors' + 1;
        RecordError(asset, stage, code.value);
      }
    }

    /** From the recorded analysis on: queues, actions and their audit. */
    method Conclude(c: Candidate, tally: Tally) returns (tally': Tally)
      requires Valid(scoped.Mine()) && c.asset in scoped.Mine().assets && Analysed(c)
      requires forall q :: q in tally.queues ==> tally.queues[q] > 0
      modifies scoped.db, log`actions, log`audits
      ensures scoped.Mine() == Apply(old(scoped.Mine()), OpIngest(c.asset, c.outcome.analysis))
      ensures Valid(scoped.Mine()) && scoped.OthersKept()
      ensures log.actions == old(log.actions) + Actions(scoped.userId, run, c)
      ensures log.audits == old(log.audits) + Audits(scoped.userId, run, c)
      ensures !Breaks(c) ==> tally'.processed == tally.processed + 1 && tally'.errors == tally.errors
      ensures !Breaks(c) ==> tally'.actions == tally.actions + |Actions(scoped.userId, run, c)|
      ensures Queued(tally.queues, Queues(c), tally'.queues)
    {
      var reply := scoped.RecordAssetAnalysis(c.asset, c.outcome.analysis);
      var queues := ScanStore.CountNames(tally.queues, c.outcome.queues);
      tally' := tally.(queues := queues);
      if c.outcome.breaks == InActions { return; }
      var actionCount := RecordActions(c.asset, c.outcome.results, tally.actions);
      tally' := tally'.(actions := actionCount, processed := tally.processed + 1);
    }

    method TakeIn(asset: AssetId)
      requires Valid(scoped.Mine())
      modifies scoped.db
      ensures scoped.Mine() == Apply(old(scoped.Mine()), OpUpsertAsset(asset))
      ensures Valid(scoped.Mine()) && scoped.OthersKept() && asset in scoped.Mine().assets
    {
      ApplyKeeps(scoped.Mine(), OpUpsertAsset(asset));
      scoped.UpsertAsset(asset);
    }

    /** The error rows of a candidate, up to where it breaks the run. */
    method ReportFaults(c: Candidate, errors: nat) returns (errors': nat)
      requires !c.outcome.Broken?
      modifies log`errors
      ensures log.errors == old(log.errors) + Errors(scoped.userId, run, c)
      ensures errors' == errors + |Errors(scoped.userId, run, c)|
    {
      if c.outcome.Fault? {
        errors' := Report(c.asset, c.outcome.stage, Some(c.outcome.code), errors);
        return;
      }
      errors' := Report(c.asset, "extractor", c.outcome.warning, errors);
      if c.outcome.breaks != InOcr {
        errors' := Report(c.asset, "ocr", c.outcome.ocrError, errors');
      }
    }

    /** The row of the asset, and what went wrong with it. */
    method Begin(c: Candidate, errors: nat) returns (errors': nat)
      requires Valid(scoped.Mine()) && !c.outcome.Broken?
      modifies scoped.db, log`errors
      ensures scoped.Mine() == Apply(old(scoped.Mine()), OpUpsertAsset(c.asset))
      ensures Valid(scoped.Mine()) && scoped.OthersKept() && c.asset in scoped.Mine().assets
      ensures log.errors == old(log.errors) + Errors(scoped.userId, run, c)
      ensures errors' == errors + |Errors(scoped.userId, run, c)|
    {
      TakeIn(c.asset);
      errors' := ReportFaults(c, errors);
    }

    /** One candidate; `broken` is the escaping exception that ends the run. */
    method HandleAsset(c: Candidate, tally: Tally) returns (tally': Tally, broken: bool)
      requires Valid(scoped.Mine())
      requires forall q :: q in tally.queues ==> tally.queues[q] > 0
      modifies scoped.db, log
      ensures Valid(scoped.Mine()) && scoped.OthersKept()
      ensures scoped.Mine() == Run(old(scoped.Mine()), Rescan(c))
      ensures log.errors == old(log.errors) + Errors(scoped.userId, run, c)
      ensures log.actions == old(log.actions) + Actions(scoped.userId, run, c)
      ensures log.audits == old(log.audits) + Audits(scoped.userId, run, c)
      ensures log.runs == old(log.runs)
      ensures broken == Breaks(c)
      ensures !broken ==> Tallied(tally, c, tally')
    {
      tally', broken := tally, Breaks(c);
      if c.outcome.Broken? { return; }
      RescanSteps(scoped.Mine(), c);
      var errors := Begin(c, tally.errors);
      tally' := tally.(errors := errors);
      if Analysed(c) { tally' := Conclude(c, tally'); }
    }

    /** What one more candidate adds to everything written. */
    lemma AfterNext(m: Moment, cs: seq<Candidate>, i: nat)
      requires i < |cs|
      ensures var p, c := After(m, cs[..i]), cs[i];
              After(m, cs[..i + 1]) == Moment(Run(p.tables, Rescan(c)), p.errors + Errors(scoped.userId, run, c),
                                              p.actions + Actions(scoped.userId, run, c), p.audits
                                                  + Audits(scoped.userId, run, c), p.runs)
    {
      RunNext(m.tables, cs, i);
      RowsNext(m.errors, cs, i, ErrorsOf(scoped.userId, run));
      RowsNext(m.actions, cs, i, ActionsOf(scoped.userId, run));
      RowsNext(m.audits, cs, i, AuditsOf(scoped.userId, run));
    }

    /** One round of the loop, with all rounds before it. */
    method HandleNext(cs: seq<Candidate>, i: nat, tally: Tally, ghost m: Moment) returns (tally': Tally, broken: bool)
      requires i < |cs| && Valid(scoped.Mine()) && Now() == After(m, cs[..i]) && Totals(tally, cs[..i])
      modifies scoped.db, log
      ensures Valid(scoped.Mine()) && scoped.OthersKept() && Now() == After(m, cs[..i + 1])
      ensures broken == Breaks(cs[i])
      ensures !broken ==> Totals(tally', cs[..i + 1])
      ensures !broken ==> FirstBreak(cs, i) == FirstBreak(cs, i + 1)
      ensures broken ==> FirstBreak(cs, i) == i
    {
      AfterNext(m, cs, i);
      tally', broken := HandleAsset(cs[i], tally);
      if !broken { TotalsNext(tally, cs, i, tally'); }
    }

    /** The loop over the candidates. */
    method HandleAll(cs: seq<Candidate>) returns (tally: Tally, broken: bool, ghost reached: seq<Candidate>)
      requires Valid(scoped.Mine())
      modifies scoped.db, log
      ensures Valid(scoped.Mine()) && scoped.OthersKept() && Now() == After(old(Now()), reached)
      ensures broken <==> FirstBreak(cs, 0) < |cs|
      ensures reached == (if broken then cs[..FirstBreak(cs, 0) + 1] else cs)
      ensures !broken ==> Totals(tally, cs)
    {
      tally := Tally(0, 0, 0, map[]);
      ghost var m := Now();
      assert cs[..0] == [];
      for i := 0 to |cs|
        invariant FirstBreak(cs, 0) == FirstBreak(cs, i)
        invariant Valid(scoped.Mine()) && scoped.OthersKept() && Now() == After(m, cs[..i])
        invariant Totals(tally, cs[..i])
      {
        tally, broken := HandleNext(cs, i, tally, m);
        if broken {
          reached := cs[..i + 1];
          return;
        }
      }
      broken := false;
      reached := cs;
      assert cs[..|cs|] == cs;
    }

    /** The counters are the numbers of rows collected, and the queue counts those of the reported queues. */
    ghost predicate Totals(tally: Tally, cs: seq<Candidate>) {
      && tally.processed == ClassifiedCount(cs)
      && tally.errors == |Collect(cs, ErrorsOf(scoped.userId, run))|
      && tally.actions == |Collect(cs, ActionsOf(scoped.userId, run))|
      && Counts(tally.queues, Collect(cs, Queues))
    }

    lemma TotalsNext(tally: Tally, cs: seq<Candidate>, i: nat, tally': Tally)
      requires i < |cs| && Totals(tally, cs[..i]) && Tallied(tally, cs[i], tally')
      ensures Totals(tally', cs[..i + 1])
    {
      assert cs[..i + 1][..i] == cs[..i];
      CollectNext(cs, i, ErrorsOf(scoped.userId, run));
      CollectNext(cs, i, ActionsOf(scoped.userId, run));
      CollectNext(cs, i, Queues);
      forall q ensures ScanRun.Occurrences(Collect(cs[..i + 1], Queues), q)
                       == ScanRun.Occurrences(Collect(cs[..i], Queues), q) + ScanRun.Occurrences(Queues(cs[i]), q) {
        OccurrencesConcat(Collect(cs[..i], Queues), Queues(cs[i]), q);
      }
    }

    /**
     A whole run. It completes exactly if nothing breaks it. Either way the event tables are what rescanning
     the assets it got to makes of them, so no manual work is lost, and every row it reports is there;
     the summary of a completed run counts exactly the rows written.
     */
    method RunScan(w: World) returns (summary: Option<Summary>)
      requires Valid(scoped.Mine())
      modifies scoped.db, log
      ensures Valid(scoped.Mine()) && scoped.OthersKept() && Protects(old(scoped.Mine()), scoped.Mine())
      ensures scoped.Mine() == Run(old(scoped.Mine()), Collect(Reached(w), Rescan))
      ensures log.errors == old(log.errors) + Collect(Reached(w), ErrorsOf(scoped.userId, run))
      ensures log.actions == old(log.actions) + Collect(Reached(w), ActionsOf(scoped.userId, run))
      ensures log.audits == old(log.audits) + Collect(Reached(w), AuditsOf(scoped.userId, run))
                            + [AuditRow(scoped.userId, run, if Completes(w) then "scan.finish"
                                else "scan.failed", None)]
      ensures log.runs == old(log.runs)[run := if summary.Some? then Completed(summary.value) else Failed]
      ensures summary.Some? <==> Completes(w)
      ensures summary.Some? ==>
                var s := summary.value;
                && s.processed == ClassifiedCount(w.candidates)
                && CountRows(log.errors, ErrorOf(run)) == CountRows(old(log.errors), ErrorOf(run)) + s.errors
                && CountRows(log.actions, ActionOf(run)) == CountRows(old(log.actions), ActionOf(run)) + s.actions
                && Counts(s.queues, Collect(w.candidates, Queues))
    {
      ghost var m := Now();
      var done := Attempt(w);
      CollectRescans(Reached(w));
      RescansProtect(m.tables, Collect(Reached(w), Rescan));
      RowsCounted(m.errors, m.actions, Reached(w));
      if done.None? {
        Finish("scan.failed", Failed);
        return None;
      }
      summary := Some(Summary(done.value.processed, done.value.errors, done.value.actions, done.value.queues));
      Finish("scan.finish", Completed(summary.value));
    }

    /** Everything up to where the run completes or an exception ends it. */
    method Attempt(w: World) returns (done: Option<Tally>)
      requires Valid(scoped.Mine())
      modifies scoped.db, log
      ensures Valid(scoped.Mine()) && scoped.OthersKept() && Now() == After(old(Now()), Reached(w))
      ensures done.Some? <==> Completes(w)
      ensures done.Some? ==> Reached(w) == w.candidates && Totals(done.value, w.candidates)
    {
      if w.setupFails {
        return None;
      }
      var tally, broken, reached := HandleAll(w.candidates);
      assert reached == Reached(w);
      if broken || w.listingFails { return None; }
      return Some(tally);
    }

    lemma RowsCounted(errors: seq<ErrorRow>, actions: seq<ActionRow>, cs: seq<Candidate>)
      ensures var more := Collect(cs, ErrorsOf(scoped.userId, run));
              CountRows(errors + more, ErrorOf(run)) == CountRows(errors, ErrorOf(run)) + |more|
      ensures var more := Collect(cs, ActionsOf(scoped.userId, run));
              CountRows(actions + more, ActionOf(run)) == CountRows(actions, ActionOf(run)) + |more|
    {
      RowsOfRun(scoped.userId, run, cs);
      CountAdded(errors, Collect(cs, ErrorsOf(scoped.userId, run)), ErrorOf(run));
      CountAdded(actions, Collect(cs, ActionsOf(scoped.userId, run)), ActionOf(run));
    }

    method Finish(action: string, row: RunRow)
      modifies log`audits, log`runs
      ensures log.audits == old(log.audits) + [AuditRow(scoped.userId, run, action, None)]
      ensures log.runs == old(log.runs)[run := row]
    {
      log.audits := log.audits + [AuditRow(scoped.userId, run, action, None)];
      log.runs := log.runs[run := row];
    }

    /** What a candidate that does not break the run adds to the counters. */
    ghost predicate Tallied(tally: Tally, c: Candidate, tally': Tally) {
      && tally'.processed == tally.processed + (if Classified(c) then 1 else 0)
      && tally'.errors == tally.errors + |Errors(scoped.userId, run, c)|
      && tally'.actions == tally.actions + |Actions(scoped.userId, run, c)|
      && Queued(tally.queues, Queues(c), tally'.queues)
    }
  }

  ghost predicate Queued(counts: map<string, nat>, names: seq<string>, counts': map<string, nat>) {
    && (forall q :: q in counts' <==> q in counts || ScanRun.Occurrences(names, q) > 0)
    && (forall q :: q in counts' ==>
          counts'[q] == (if q in counts then counts[q] else 0) + ScanRun.Occurrences(names, q))
  }

  lemma {:induction false} CollectRescans(cs: seq<Candidate>)
    ensures forall op :: op in Collect(cs, Rescan) ==> IsRescan(op)
  {
    if cs != [] { CollectRescans(cs[..|cs| - 1]); }
  }

  lemma RescanSteps(t: Tables, c: Candidate)
    requires !c.outcome.Broken?
    ensures var t1 := Apply(t, OpUpsertAsset(c.asset));
            Run(t, Rescan(c)) == if Analysed(c) then Apply(t1, OpIngest(c.asset, c.outcome.analysis)) else t1
  {
    if Analysed(c) { RunTwo(t, OpUpsertAsset(c.asset), OpIngest(c.asset, c.outcome.analysis)); }
  }

  lemma RunTwo(t: Tables, op: Op, op': Op)
    ensures Run(t, [op] + [op']) == Apply(Apply(t, op), op')
  {
    RunStep(t, op, [op']);
  }
}
