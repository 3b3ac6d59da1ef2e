/** What a scan of the service leaves in each table, told from what its candidates meet. */
module ServiceRows {
  import opened PyText
  import opened EventModel
  import opened EventInvariant
  import opened EventStore
  import opened ServiceRun
  import ScanRun

  /** The candidate is dealt with from beginning to end. */
  ghost predicate Finished(c: Candidate) {
    c.outcome.Fault? || (c.outcome.Seen? && c.outcome.breaks == Never)
  }

  /** `f` of every candidate, added up. */
  ghost function Times(cs: seq<Candidate>, f: Candidate -> nat): nat {
    if cs == [] then 0 else Times(cs[..|cs| - 1], f) + f(cs[|cs| - 1])
  }

  /** Main result: a run gets to a candidate if it gets started and deals with all before it ... */
  lemma ReachedIff(w: World, k: nat)
    requires k < |w.candidates|
    ensures Reached(w) <= w.candidates
    ensures k < |Reached(w)| <==> !w.setupFails && forall j :: 0 <= j < k ==> Finished(w.candidates[j])
  {
    var b := FirstBreak(w.candidates, 0);
    if b < k && !w.setupFails { assert !Finished(w.candidates[b]); }
  }

  /** ... and completes if it deals with all of them and the listing does not break off. */
  lemma CompletesIff(w: World)
    ensures Completes(w) <==>
              !w.setupFails && !w.listingFails && forall k :: 0 <= k < |w.candidates| ==> Finished(w.candidates[k])
  {
    forall c: Candidate ensures Breaks(c) <==> !Finished(c) {}
    if Completes(w) { assert forall k :: 0 <= k < |w.candidates| ==> w.candidates[k] in w.candidates; }
  }

  // ---- Assets and analyses ----

  /** Each candidate with an analysis replaces the one stored for its asset. */
  ghost function LatestAnalyses(before: map<AssetId, Analysis>, cs: seq<Candidate>): map<AssetId, Analysis> {
    if cs == [] then before
    else
      var latest, c := LatestAnalyses(before, cs[..|cs| - 1]), cs[|cs| - 1];
      if c.outcome.Seen? && c.outcome.breaks != InOcr && c.outcome.breaks != InAnalysis
      then latest[c.asset := c.outcome.analysis] else latest
  }

  /**
   Main result: afterwards there is a row for every asset there was or that was not broken off at once, and
   each asset has the latest of its analyses.
   */
  lemma {:induction false} StoredAfter(t: Tables, cs: seq<Candidate>)
    ensures var t' := Run(t, Collect(cs, Rescan));
            && t'.assets == t.assets + AssetsOf(cs)
            && t'.analyses == LatestAnalyses(t.analyses, cs)
  {
    if cs == [] {
      assert Collect(cs, Rescan) == [];
    } else {
      var init, c := cs[..|cs| - 1], cs[|cs| - 1];
      var before := Run(t, Collect(init, Rescan));
      StoredAfter(t, init);
      RunThen(t, Collect(init, Rescan), Rescan(c));
      StoredNext(before, c);
      AssetsNext(init, c);
      assert cs == init + [c];
    }
  }

  ghost function AssetsOf(cs: seq<Candidate>): set<AssetId> {
    set c | c in cs && c.outcome != Broken :: c.asset
  }

  lemma AssetsNext(cs: seq<Candidate>, c: Candidate)
    ensures AssetsOf(cs + [c]) == AssetsOf(cs) + (if c.outcome == Broken then {} else {c.asset})
  {
  }

  lemma StoredNext(t: Tables, c: Candidate)
    ensures var t' := Run(t, Rescan(c));
            && t'.assets == t.assets + (if c.outcome == Broken then {} else {c.asset})
            && t'.analyses == if Analysed(c) then t.analyses[c.asset := c.outcome.analysis] else t.analyses
  {
    if !c.outcome.Broken? { RescanSteps(t, c); }
  }

  // ---- Log rows ----

  /** How often the candidate is to be reported by the row: once or not at all. */
  ghost function Reports(user: UserId, run: nat, row: ErrorRow): Candidate -> nat {
    (c: Candidate) =>
      var due := match c.outcome
        case Fault(stage, code) => row.stage == stage && row.code == code
        case Broken => false
        case Seen(warning, ocrError, _, _, _, breaks) =>
          || (row.stage == "extractor" && warning == Some(row.code))
          || (row.stage == "ocr" && ocrError == Some(row.code) && breaks != InOcr);
      if due && row.asset == c.asset && row.user == user && row.run == run then 1 else 0
  }

  ghost function EqualTo<T>(x: T): T -> bool {
    (y: T) => y == x
  }

  /** Main result: every fault, warning and OCR error a candidate meets is recorded, once, and nothing else is. */
  lemma {:induction false} ErrorsRecorded(user: UserId, run: nat, cs: seq<Candidate>, row: ErrorRow)
    ensures CountRows(Collect(cs, ErrorsOf(user, run)), EqualTo(row)) == Times(cs, Reports(user, run, row))
  {
    if cs != [] {
      var init, c := cs[..|cs| - 1], cs[|cs| - 1];
      ErrorsRecorded(user, run, init, row);
      CountConcat(Collect(init, ErrorsOf(user, run)), Errors(user, run, c), EqualTo(row));
      ErrorsOfOne(user, run, c, row);
    }
  }

  lemma ErrorsOfOne(user: UserId, run: nat, c: Candidate, row: ErrorRow)
    ensures CountRows(Errors(user, run, c), EqualTo(row)) == Reports(user, run, row)(c)
  {
    match c.outcome
    case Broken =>
    case Fault(stage, code) => CountOne(user, run, c.asset, stage, Some(code), row);
    case Seen(warning, ocrError, _, _, _, breaks) =>
      var seen := if breaks == InOcr then None else ocrError;
      CountOne(user, run, c.asset, "extractor", warning, row);
      CountOne(user, run, c.asset, "ocr", seen, row);
      CountConcat(OneError(user, run, c.asset, "extractor", warning), OneError(user, run, c.asset, "ocr", seen),
                  EqualTo(row));
  }

  lemma CountOne(user: UserId, run: nat, asset: AssetId, stage: string, code: Option<string>, row: ErrorRow)
    ensures CountRows(OneError(user, run, asset, stage, code), EqualTo(row)) ==
              if code.Some? && row == ErrorRow(user, run, asset, stage, code.value) then 1 else 0
  {
    var rows := OneError(user, run, asset, stage, code);
    if rows != [] { assert rows[..0] == []; }
  }

  /** How often the actions of the candidate have this result, if they are carried out. */
  ghost function Results(user: UserId, run: nat, row: ActionRow): Candidate -> nat {
    (c: Candidate) =>
      if c.outcome.Seen? && c.outcome.breaks == Never && row.asset == c.asset && row.user == user && row.run == run
      then multiset(c.outcome.results)[row.result] else 0
  }

  /** Main result: every action carried out has its row. */
  lemma {:induction false} ActionsRecorded(user: UserId, run: nat, cs: seq<Candidate>, row: ActionRow)
    ensures CountRows(Collect(cs, ActionsOf(user, run)), EqualTo(row)) == Times(cs, Results(user, run, row))
  {
    if cs != [] {
      var init, c := cs[..|cs| - 1], cs[|cs| - 1];
      ActionsRecorded(user, run, init, row);
      CountConcat(Collect(init, ActionsOf(user, run)), Actions(user, run, c), EqualTo(row));
      if Acted(c) { ActionsOfOne(user, run, c.asset, c.outcome.results, row); }
    }
  }

  lemma {:induction false} ActionsOfOne(user: UserId, run: nat, asset: AssetId, results: seq<ActionResult>,
      row: ActionRow)
    ensures CountRows(ActionRows(user, run, asset, results), EqualTo(row)) ==
              if row.asset == asset && row.user == user && row.run == run then multiset(results)[row.result] else 0
  {
    if results != [] {
      var init, last := results[..|results| - 1], results[|results| - 1];
      var rows := ActionRows(user, run, asset, results);
      assert results == init + [last];
      ActionsOfOne(user, run, asset, init, row);
      assert rows[..|rows| - 1] == ActionRows(user, run, asset, init);
    }
  }

  /** How often the analysis of the candidate puts it in the review queue. */
  ghost function QueuedIn(queue: string): Candidate -> nat {
    (c: Candidate) =>
      if c.outcome.Seen? && c.outcome.breaks in {Never, InActions} then multiset(c.outcome.queues)[queue] else 0
  }

  /** The queue counts of a run are those of the analyses. */
  lemma {:induction false} QueuesCounted(cs: seq<Candidate>, queue: string)
    ensures ScanRun.Occurrences(Collect(cs, Queues), queue) == Times(cs, QueuedIn(queue))
  {
    if cs != [] {
      var init, c := cs[..|cs| - 1], cs[|cs| - 1];
      QueuesCounted(init, queue);
      OccurrencesConcat(Collect(init, Queues), Queues(c), queue);
      OccurrencesIs(Queues(c), queue);
    }
  }

  lemma {:induction false} OccurrencesIs(names: seq<string>, name: string)
    ensures ScanRun.Occurrences(names, name) == multiset(names)[name]
  {
    if names != [] {
      OccurrencesIs(names[..|names| - 1], name);
      assert names == names[..|names| - 1] + [names[|names| - 1]];
    }
  }
}
