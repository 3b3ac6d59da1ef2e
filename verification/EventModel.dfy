/**
 The event-group tables of one user, and what each operation does to them.

 A row table is a map from its primary key; `Tables` is everything the store keeps for one user.
 The operations are given here as functions from tables to tables; `EventStore` holds the code that
 changes the shared tables in place and is proved against these functions, and `EventInvariant` and
 `EventLaws` prove what the functions promise.
 */
module EventModel {
  import opened PyText

  type AssetId = string
  type EventId = string

  // ---- Rows ----

  datatype Status = Auto | Manual | Merged | Reset

  /** Where a group comes from: derived from an analysis, or split off another event. */
  datatype Origin = Derived(detail: string) | SplitFrom(event: EventId, chosen: set<AssetId>)

  /** The `source_json` column: `mergedInto` is its `merged_into_event_id` entry. */
  datatype Source = Source(origin: Origin, mergedInto: Option<EventId>)

  datatype Group = Group(autoKey: Option<string>, title: string, status: Status, sortAt: Option<string>, source: Source)

  datatype Assignment = ByAuto | ByHand | Removed

  datatype Member = Member(event: Option<EventId>, autoKey: Option<string>, assignment: Assignment)

  /**
   What the store reads off an analysis: the event key as it was reported (`None` when there is no
   `events` mapping or its key is not a string), and the title, sort key and source it composes.
   */
  datatype Analysis = Analysis(rawKey: Option<string>, title: string, sortAt: Option<string>, detail: string)

  datatype Tables = Tables(
    assets: set<AssetId>,
    analyses: map<AssetId, Analysis>,
    groups: map<EventId, Group>,
    members: map<AssetId, Member>)

  const EMPTY_TABLES := Tables({}, map[], map[], map[])

  // ---- Identifiers ----

  /** Stands for `auto-` followed by the digest of the key: an injective function of the key. */
  function AutoEventId(key: string): EventId {
    "auto-" + key
  }

  function ManualEventId(draw: string): EventId {
    "manual-" + draw
  }

  lemma AutoIdsInjective(k: string, l: string)
    ensures AutoEventId(k) == AutoEventId(l) <==> k == l
  {
    assert AutoEventId(k)[5..] == k && AutoEventId(l)[5..] == l;
  }

  lemma ManualIdsInjective(d: string, e: string)
    ensures ManualEventId(d) == ManualEventId(e) <==> d == e
  {
    assert ManualEventId(d)[7..] == d && ManualEventId(e)[7..] == e;
  }

  lemma AutoIsNotManual(k: string)
    ensures !("manual-" <= AutoEventId(k))
  {
    assert AutoEventId(k)[0] == 'a' && "manual-"[0] == 'm';
  }

  // ---- Reading ----

  datatype EventInput = EventInput(autoKey: string, title: string, sortAt: Option<string>, detail: string)

  function InputOf(a: Analysis): Option<EventInput> {
    if a.rawKey.None? || Strip(a.rawKey.value) == "" then None
    else Some(EventInput(Strip(a.rawKey.value), a.title, a.sortAt, a.detail))
  }

  predicate Visible(t: Tables, e: EventId) {
    e in t.groups && t.groups[e].status !in {Merged, Reset}
  }

  /** The assets whose membership row names `e`. */
  function Rows(t: Tables, e: EventId): set<AssetId> {
    set a | a in t.members && t.members[a].event == Some(e)
  }

  /** The assets an event is shown with. */
  function AssetsOf(t: Tables, e: EventId): set<AssetId> {
    set a | a in t.members && t.members[a].event == Some(e) && t.members[a].assignment != Removed
  }

  function Count(t: Tables, e: EventId): nat {
    |AssetsOf(t, e)|
  }

  /** What a call answers: the group shown, nothing, a row count, or the exception it raises. */
  datatype Reply = Shown(event: EventId, group: Group, assets: nat) | Done | ResetRows(rows: nat)
                 | LookupError | ValueError

  datatype Step = Step(tables: Tables, reply: Reply)

  function Show(t: Tables, e: EventId): Reply {
    if Visible(t, e) && Count(t, e) > 0 then Shown(e, t.groups[e], Count(t, e)) else LookupError
  }

  /** Asset and event ids as the caller's list names them: stripped, blanks dropped, duplicates merged. */
  function CleanIds(ids: seq<string>): set<string> {
    set v | v in ids && Strip(v) != "" :: Strip(v)
  }

  function NormalizeTitle(title: string): Option<string> {
    var clean := Collapse(Strip(title));
    if clean == "" then None else Some(if |clean| <= 160 then clean else clean[..160])
  }

  /** A title is its words, joined by single spaces and cut; without a word there is none. */
  lemma NormalizedTitle(title: string)
    ensures var text := Join(" ", Words(title));
            NormalizeTitle(title) ==
              if Words(title) == [] then None else Some(if |text| <= 160 then text else text[..160])
  {
    CollapseIsSpacedWords(title);
  }

  // ---- Ingest ----

  datatype Ensured = Ensured(groups: map<EventId, Group>, event: EventId)

  function FreshAuto(inp: EventInput): Group {
    Group(Some(inp.autoKey), inp.title, Auto, inp.sortAt, Source(Derived(inp.detail), None))
  }

  function Refreshed(g: Group, inp: EventInput): Group {
    g.(sortAt := inp.sortAt, source := Source(Derived(inp.detail), None))
  }

  function Ensure(groups: map<EventId, Group>, inp: EventInput, restore: bool): Ensured {
    var id := AutoEventId(inp.autoKey);
    if id !in groups then
      Ensured(groups[id := FreshAuto(inp)], id)
    else
      var g := groups[id];
      if g.status == Merged && !restore && g.source.mergedInto.Some? && g.source.mergedInto.value != "" then
        Ensured(groups, g.source.mergedInto.value)
      else if g.status == Auto || restore then
        Ensured(groups[id := Refreshed(g, inp).(title := inp.title, status := Auto)], id)
      else
        Ensured(groups[id := Refreshed(g, inp)], id)
  }

  function Sync(t: Tables, asset: AssetId, analysis: Analysis, preserve: bool): Tables {
    match InputOf(analysis)
    case None =>
      if asset in t.members && (!preserve || t.members[asset].assignment == ByAuto)
      then t.(members := t.members - {asset})
      else t
    case Some(inp) =>
      if preserve && asset in t.members && t.members[asset].assignment != ByAuto then t
      else
        var g := Ensure(t.groups, inp, !preserve);
        t.(groups := g.groups, members := t.members[asset := Member(Some(g.event), Some(inp.autoKey), ByAuto)])
  }

  function RecordAnalysis(t: Tables, asset: AssetId, analysis: Analysis): Step {
    if asset !in t.assets then Step(t, LookupError)
    else Step(Sync(t.(analyses := t.analyses[asset := analysis]), asset, analysis, true), Done)
  }

  // ---- Manual edits ----

  function Rename(t: Tables, e: EventId, title: string): Step {
    if !Visible(t, e) then Step(t, LookupError)
    else if NormalizeTitle(title).None? then Step(t, ValueError)
    else
      var t' := t.(groups := t.groups[e := t.groups[e].(title := NormalizeTitle(title).value, status := Manual)]);
      Step(t', Show(t', e))
  }

  function MarkMerged(groups: map<EventId, Group>, target: EventId, sources: set<EventId>): map<EventId, Group> {
    map e | e in groups ::
      if e in sources then groups[e].(status := Merged, source := groups[e].source.(mergedInto := Some(target)))
      else groups[e]
  }

  /** Every membership of one of `events` becomes a manual one of `target`. */
  function Repoint(members: map<AssetId, Member>, events: set<EventId>, target: EventId): map<AssetId, Member> {
    map a | a in members ::
      if members[a].event.Some? && members[a].event.value in events
      then members[a].(event := Some(target), assignment := ByHand)
      else members[a]
  }

  function MergeSources(target: EventId, sources: seq<string>): set<EventId> {
    CleanIds(sources) - {target}
  }

  function MergedTables(t: Tables, target: EventId, sources: set<EventId>): Tables
    requires target in t.groups
  {
    t.(groups := MarkMerged(t.groups[target := t.groups[target].(status := Manual)], target, sources),
       members := Repoint(t.members, sources + {target}, target))
  }

  function Merge(t: Tables, target: EventId, sources: seq<string>): Step {
    var clean := MergeSources(target, sources);
    if !Visible(t, target) then Step(t, LookupError)
    else if clean == {} then Step(t, ValueError)
    else if exists s :: s in clean && !Visible(t, s) then Step(t, LookupError)
    else
      var t' := MergedTables(t, target, clean);
      Step(t', Show(t', target))
  }

  function MoveAssets(members: map<AssetId, Member>, chosen: set<AssetId>, target: EventId): map<AssetId, Member> {
    map a | a in members ::
      if a in chosen then members[a].(event := Some(target), assignment := ByHand) else members[a]
  }

  function SplitTables(t: Tables, e: EventId, chosen: set<AssetId>, title: string, newId: EventId): Tables {
    t.(groups := t.groups[newId := Group(None, title, Manual, None, Source(SplitFrom(e, chosen), None))],
       members := MoveAssets(t.members, chosen, newId))
  }

  function Split(t: Tables, e: EventId, assets: seq<string>, title: string, newId: EventId): Step {
    var chosen := CleanIds(assets);
    if !Visible(t, e) then Step(t, LookupError)
    else if chosen == {} || !(chosen <= Rows(t, e)) || NormalizeTitle(title).None? then Step(t, ValueError)
    else
      var t' := SplitTables(t, e, chosen, NormalizeTitle(title).value, newId);
      Step(t', Show(t', newId))
  }

  function Remove(t: Tables, e: EventId, asset: AssetId): Step {
    if !Visible(t, e) || asset !in Rows(t, e) then Step(t, LookupError)
    else Step(t.(members := t.members[asset := t.members[asset].(event := None, assignment := Removed)]), Done)
  }

  // ---- Reset ----

  function ResetOne(t: Tables, asset: AssetId): Tables {
    if asset !in t.analyses then t.(members := t.members - {asset})
    else Sync(t, asset, t.analyses[asset], false)
  }

  function ResetAll(t: Tables, assets: seq<AssetId>): Tables
    decreases |assets|
  {
    if assets == [] then t else ResetAll(ResetOne(t, assets[0]), assets[1..])
  }

  /** `order` lists a set once, as the rows of a query come: in some order. */
  ghost predicate Enumerates(order: seq<AssetId>, s: set<AssetId>) {
    (forall x :: x in order <==> x in s) && (forall i, j :: 0 <= i < j < |order| ==> order[i] != order[j])
  }

  function ResetGroup(t: Tables, e: EventId, order: seq<AssetId>): Step {
    if !Visible(t, e) then Step(t, LookupError)
    else
      var t1 := ResetAll(t, order);
      var t2 := if t.groups[e].autoKey.None? && e in t1.groups
                then t1.(groups := t1.groups[e := t1.groups[e].(status := Reset)])
                else t1;
      Step(t2, ResetRows(|order|))
  }

  // ---- Runs ----

  datatype Op =
    | OpUpsertAsset(asset: AssetId)
    | OpIngest(asset: AssetId, analysis: Analysis)
    | OpRename(event: EventId, title: string)
    | OpMerge(target: EventId, sources: seq<string>)
    | OpSplit(event: EventId, assets: seq<string>, title: string, draw: string)
    | OpRemove(event: EventId, asset: AssetId)
    | OpReset(event: EventId, order: seq<AssetId>)

  /**
   One call. A split whose random id is already taken draws again, so nothing happens yet; a reset
   visits the rows that name the event, in any order (an `order` that is not one names no call).
   */
  ghost function Apply(t: Tables, op: Op): Tables {
    match op
    case OpUpsertAsset(a) => t.(assets := t.assets + {a})
    case OpIngest(a, an) => RecordAnalysis(t, a, an).tables
    case OpRename(e, title) => Rename(t, e, title).tables
    case OpMerge(e, ss) => Merge(t, e, ss).tables
    case OpSplit(e, aa, title, draw) =>
      if ManualEventId(draw) in t.groups then t else Split(t, e, aa, title, ManualEventId(draw)).tables
    case OpRemove(e, a) => Remove(t, e, a).tables
    case OpReset(e, order) => if Enumerates(order, Rows(t, e)) then ResetGroup(t, e, order).tables else t
  }

  ghost function Run(t: Tables, ops: seq<Op>): Tables
    decreases |ops|
  {
    if ops == [] then t else Run(Apply(t, ops[0]), ops[1..])
  }

  lemma RunStep(t: Tables, op: Op, ops: seq<Op>)
    ensures Run(t, [op] + ops) == Run(Apply(t, op), ops)
  {
    assert ([op] + ops)[1..] == ops;
  }

  lemma {:induction false} RunThen(t: Tables, ops: seq<Op>, more: seq<Op>)
    ensures Run(t, ops + more) == Run(Run(t, ops), more)
    decreases |ops|
  {
    if ops == [] {
      assert ops + more == more;
    } else {
      assert ops + more == [ops[0]] + (ops[1..] + more);
      RunStep(t, ops[0], ops[1..] + more);
      RunThen(Apply(t, ops[0]), ops[1..], more);
    }
  }

  lemma RunSnoc(t: Tables, ops: seq<Op>, op: Op)
    ensures Run(t, ops + [op]) == Apply(Run(t, ops), op)
  {
    RunThen(t, ops, [op]);
    assert [op] == [op] + [];
    RunStep(Run(t, ops), op, []);
  }
}
