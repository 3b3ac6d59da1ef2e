/**
 The auto-scan poll of one user: walk the pages of newly taken assets, dispatch a scan if there are any,
 and move the stored cursor to the latest time stamp seen, but only if everything went well.
 */
module AutoScan {
  import opened PyText
  import opened StringOrder

  // ---- What comes from outside ----

  /** One answer of the upstream server. An item without usable time stamp is `None`. */
  datatype Reply =
    | Unreachable
    | Answer(status: nat, body: Body)

  datatype Body = NotJson | Items(stamps: seq<Option<string>>, next: NextPage)

  /**
   `NoPage` is a missing or malformed number; an infinite one raises `OverflowError`, which nothing in the
   tick catches.
   */
  datatype NextPage = NoPage | Page(number: int) | Infinite

  datatype Dispatched = Submitted(run: int) | Rejected | RaisedValueError | RaisedOther

  /** Everything a tick depends on besides the stored row; `replies(i)` is the answer to its i-th request. */
  datatype World = World(hasSession: bool, decrypts: bool, replies: nat -> Reply, maxPages: nat,
      dispatch: Dispatched, now: string)

  datatype Row = Row(enabled: bool, lastSeen: Option<string>, lastRun: Option<string>, status: string,
      error: Option<string>)

  datatype Outcome = Outcome(status: string, error: Option<string>, newAssets: nat, pages: nat,
      run: Option<int>) | Crashed

  // ---- The latest time stamp ----

  /** `_max_taken_at`: the fold over the usable stamps. */
  function Latest(current: Option<string>, stamps: seq<Option<string>>): Option<string> {
    if stamps == [] then current
    else
      var out, last := Latest(current, stamps[..|stamps| - 1]), stamps[|stamps| - 1];
      if last.None? || last.value == "" then out
      else if out.None? || Less(out.value, last.value) then last
      else out
  }

  /** No usable stamp, and not the current one, is later than `m`. */
  ghost predicate IsLatest(m: Option<string>, current: Option<string>, stamps: seq<Option<string>>) {
    && (m == current || (m in stamps && m != Some("")))
    && (m.None? ==> current.None? && forall i :: 0 <= i < |stamps| ==> stamps[i].None? || stamps[i].value == "")
    && (m.Some? ==>
          && (current.Some? ==> !Less(m.value, current.value))
          && forall i :: 0 <= i < |stamps| && stamps[i].Some? && stamps[i].value != "" ==>
              !Less(m.value, stamps[i].value))
  }

  lemma {:induction false} LatestIsLatest(current: Option<string>, stamps: seq<Option<string>>)
    ensures IsLatest(Latest(current, stamps), current, stamps)
  {
    if stamps == [] {
      if current.Some? { LessAsymmetric(current.value, current.value); }
    } else {
      var init, last := stamps[..|stamps| - 1], stamps[|stamps| - 1];
      LatestIsLatest(current, init);
      var out := Latest(current, init);
      assert stamps == init + [last];
      if last.Some? && last.value != "" && out.Some? {
        LessAsymmetric(last.value, last.value);
        if Less(out.value, last.value) {
          LaterStays(out.value, last.value, current, init);
        }
      }
      if last.Some? { LessAsymmetric(last.value, last.value); }
    }
  }

  /** What is not later than `m` is not later than anything above `m`. */
  lemma LaterStays(m: string, above: string, current: Option<string>, stamps: seq<Option<string>>)
    requires Less(m, above) && IsLatest(Some(m), current, stamps)
    ensures current.Some? ==> !Less(above, current.value)
    ensures forall i :: 0 <= i < |stamps| && stamps[i].Some? && stamps[i].value != "" ==> !Less(above, stamps[i].value)
  {
    if current.Some? && Less(above, current.value) { LessTransitive(m, above, current.value); }
    forall i | 0 <= i < |stamps| && stamps[i].Some? && stamps[i].value != "" ensures !Less(above, stamps[i].value) {
      if Less(above, stamps[i].value) { LessTransitive(m, above, stamps[i].value); }
    }
  }

  lemma {:induction false} LatestConcat(current: Option<string>, a: seq<Option<string>>, b: seq<Option<string>>)
    ensures Latest(current, a + b) == Latest(Latest(current, a), b)
  {
    if b == [] {
      assert a + b == a;
    } else {
      LatestConcat(current, a, b[..|b| - 1]);
      assert (a + b)[..|a + b| - 1] == a + b[..|b| - 1];
    }
  }

  method MaxTakenAt(stamps: seq<Option<string>>, current: Option<string>) returns (out: Option<string>)
    ensures out == Latest(current, stamps)
  {
    out := current;
    for i := 0 to |stamps|
      invariant out == Latest(current, stamps[..i])
    {
      assert stamps[..i + 1][..i] == stamps[..i];
      if stamps[i].None? || stamps[i].value == "" { continue; }
      if out.None? || Less(out.value, stamps[i].value) { out := stamps[i]; }
    }
    assert stamps[..|stamps|] == stamps;
  }

  // ---- Walking the pages ----

  /** How the page walk of a tick ends: what it saw, the pages read, and what went wrong, if anything. */
  datatype Walk = Walk(stamps: seq<Option<string>>, pages: nat, requests: nat, end: End)

  datatype End = Good | Failed(code: string, disable: bool) | Raised

  function EndOf(error: Option<string>, disable: bool): End {
    if error.Some? then Failed(error.value, disable) else Good
  }

  predicate Expires(w: Walk) {
    w.end.Failed? && w.end.disable
  }

  function Failure(r: Reply): Option<string> {
    if r.Unreachable? then Some("upstream_unreachable")
    else if r.status == 401 then Some("upstream_session_expired")
    else if r.status >= 500 then Some("upstream_unreachable")
    else if r.status >= 400 then Some("upstream_bad_request")
    else if r.body.NotJson? then Some("upstream_invalid_json")
    else None
  }

  /** The walk from the i-th request on, when there is a page to ask for. */
  function WalkFrom(replies: nat -> Reply, maxPages: nat, i: nat, stamps: seq<Option<string>>): Walk
    decreases maxPages - i
  {
    if i >= maxPages then Walk(stamps, i, i, Good)
    else
      var r := replies(i);
      if Failure(r).Some? then
        Walk(stamps, if r.Unreachable? then i else i + 1, i + 1, Failed(Failure(r).value, r.Answer? && r.status == 401))
      else if r.body.next.Infinite? then Walk(stamps, i + 1, i + 1, Raised)
      else if r.body.next.NoPage? then Walk(stamps + r.body.stamps, i + 1, i + 1, Good)
      else WalkFrom(replies, maxPages, i + 1, stamps + r.body.stamps)
  }

  lemma {:induction false} WalkBounded(replies: nat -> Reply, maxPages: nat, i: nat, stamps: seq<Option<string>>)
    requires i <= maxPages
    ensures var w := WalkFrom(replies, maxPages, i, stamps);
            && w.pages <= w.requests <= maxPages && stamps <= w.stamps
            && (Expires(w) ==> w.end.code == "upstream_session_expired")
    decreases maxPages - i
  {
    if i < maxPages && Failure(replies(i)).None? && replies(i).body.next.Page? {
      WalkBounded(replies, maxPages, i + 1, stamps + replies(i).body.stamps);
    }
  }

  // ---- What a walk is, told from the replies alone ----

  /** A page of items whose next page is missing, malformed or a number. */
  predicate GoodPage(r: Reply) {
    r.Answer? && r.status < 400 && r.body.Items? && r.body.next != Infinite
  }

  predicate NamesNext(r: Reply) {
    GoodPage(r) && r.body.next.Page?
  }

  /** The error code of a reply that ends the walk badly. */
  predicate Fails(r: Reply, code: string) {
    match code
    case "upstream_session_expired" => r.Answer? && r.status == 401
    case "upstream_bad_request" => r.Answer? && 400 <= r.status < 500 && r.status != 401
    case "upstream_invalid_json" => r.Answer? && r.status < 400 && r.body.NotJson?
    case "upstream_unreachable" => r.Unreachable? || (r.Answer? && r.status >= 500)
    case _ => false
  }

  /** All items of the first `n` replies. */
  function StampsOf(replies: nat -> Reply, n: nat): seq<Option<string>> {
    if n == 0 then []
    else StampsOf(replies, n - 1) + (if GoodPage(replies(n - 1)) then replies(n - 1).body.stamps else [])
  }

  /** The walk goes through `k` pages that name a next one, and there it stops. */
  ghost predicate StopsAt(replies: nat -> Reply, maxPages: nat, k: nat) {
    k <= maxPages && (forall i: nat :: i < k ==> NamesNext(replies(i))) && (k < maxPages ==> !NamesNext(replies(k)))
  }

  /**
   A walk that ends well reads `n` pages: each is good and names the next, and the last is the last there
   may be or is.
   */
  ghost predicate ReadsWell(replies: nat -> Reply, maxPages: nat, n: nat) {
    && n <= maxPages && (forall i: nat :: i < n ==> GoodPage(replies(i)))
    && (forall i: nat :: i + 1 < n ==> NamesNext(replies(i)))
    && (n == maxPages || (n > 0 && replies(n - 1).body.next.NoPage?))
  }

  /** The walk stops at `k`, after the items of the pages before it. */
  ghost predicate WalksTo(replies: nat -> Reply, maxPages: nat, k: nat, w: Walk) {
    StopsAt(replies, maxPages, k) && w == WalkFrom(replies, maxPages, k, StampsOf(replies, k))
  }

  lemma {:induction false} WalkStops(replies: nat -> Reply, maxPages: nat, i: nat, w: Walk)
    requires i <= maxPages && forall j: nat :: j < i ==> NamesNext(replies(j))
    requires w == WalkFrom(replies, maxPages, i, StampsOf(replies, i))
    ensures exists k :: WalksTo(replies, maxPages, k, w)
    decreases maxPages - i
  {
    if i < maxPages && NamesNext(replies(i)) {
      WalkStops(replies, maxPages, i + 1, w);
    } else {
      assert WalksTo(replies, maxPages, i, w);
    }
  }

  /** ... and nowhere else. */
  ghost predicate WalksOnlyTo(replies: nat -> Reply, maxPages: nat, k: nat, w: Walk) {
    WalksTo(replies, maxPages, k, w) && forall l: nat :: StopsAt(replies, maxPages, l) ==> l == k
  }

  lemma WalkIs(replies: nat -> Reply, maxPages: nat)
    ensures exists k :: WalksOnlyTo(replies, maxPages, k, WalkFrom(replies, maxPages, 0, []))
  {
    var w := WalkFrom(replies, maxPages, 0, []);
    WalkStops(replies, maxPages, 0, w);
    var k :| WalksTo(replies, maxPages, k, w);
    assert WalksOnlyTo(replies, maxPages, k, w);
  }

  /** Main result: a walk ends well after `n` pages exactly if it reads them well, and then it has all their items. */
  lemma WalkEndsWellIff(replies: nat -> Reply, maxPages: nat, n: nat)
    ensures var w := WalkFrom(replies, maxPages, 0, []);
            && (w.end == Good && w.pages == n <==> ReadsWell(replies, maxPages, n))
            && (w.end == Good ==> w.stamps == StampsOf(replies, w.pages))
  {
    WalkIs(replies, maxPages);
    var k :| WalksOnlyTo(replies, maxPages, k, WalkFrom(replies, maxPages, 0, []));
    if ReadsWell(replies, maxPages, n) {
      assert StopsAt(replies, maxPages, if n > 0 && replies(n - 1).body.next.NoPage? then n - 1 else n);
    }
  }

  /** Main result: a walk fails with a code exactly if the first page that names no next one fails with it. */
  lemma WalkFailsIff(replies: nat -> Reply, maxPages: nat, code: string, disable: bool)
    ensures WalkFrom(replies, maxPages, 0, []).end == Failed(code, disable) <==>
              exists k: nat :: StopsAt(replies, maxPages, k) && k < maxPages && Fails(replies(k), code)
                               && disable == (replies(k).Answer? && replies(k).status == 401)
  {
    WalkIs(replies, maxPages);
    var k :| WalksOnlyTo(replies, maxPages, k, WalkFrom(replies, maxPages, 0, []));
  }

  // ---- One tick ----

  /** What a tick does to the row. */
  datatype Result = Result(row: Row, outcome: Outcome)

  function StoreTick(row: Row, w: World, status: string, error: Option<string>, lastSeen: Option<string>,
      disable: bool): Row {
    Row(row.enabled && !disable, if lastSeen.None? then row.lastSeen else lastSeen, Some(w.now), status, error)
  }

  function Tick(row: Row, w: World): Result {
    if !w.hasSession then
      Result(StoreTick(row, w, "error", Some("no_active_session"), row.lastSeen, true),
             Outcome("error", Some("no_active_session"), 0, 0, None))
    else if !w.decrypts then
      Result(StoreTick(row, w, "error", Some("session_decrypt_failed"), row.lastSeen, false),
             Outcome("error", Some("session_decrypt_failed"), 0, 0, None))
    else
      var walk := WalkFrom(w.replies, w.maxPages, 0, []);
      var n := |walk.stamps|;
      if walk.end.Raised? then Result(row, Crashed)
      else if walk.end.Failed? then
        Result(StoreTick(row, w, "error", Some(walk.end.code), row.lastSeen, walk.end.disable),
               Outcome("error", Some(walk.end.code), n, walk.pages, None))
      else if n > 0 && w.dispatch == RaisedOther then Result(row, Crashed)
      else if n > 0 && w.dispatch == RaisedValueError then
        Result(StoreTick(row, w, "error", Some("session_decrypt_failed"), row.lastSeen, false),
               Outcome("error", Some("session_decrypt_failed"), n, walk.pages, None))
      else
        Result(StoreTick(row, w, "ok", None, Latest(row.lastSeen, walk.stamps), false),
               Outcome("ok", None, n, walk.pages,
                       if n > 0 && w.dispatch.Submitted? then Some(w.dispatch.run) else None))
  }

  /** Page `n` is the last of a good walk that finds assets. */
  ghost predicate WalkFinds(w: World, n: nat) {
    ReadsWell(w.replies, w.maxPages, n) && StampsOf(w.replies, n) != []
  }

  lemma FoundIff(w: World)
    ensures var walk := WalkFrom(w.replies, w.maxPages, 0, []);
            (walk.end.Good? && walk.stamps != []) <==> exists n :: WalkFinds(w, n)
  {
    var walk := WalkFrom(w.replies, w.maxPages, 0, []);
    WalkEndsWellIff(w.replies, w.maxPages, walk.pages);
    if walk.end.Good? && walk.stamps != [] { assert WalkFinds(w, walk.pages); }
    if n: nat :| WalkFinds(w, n) {
      WalkEndsWellIff(w.replies, w.maxPages, n);
    }
  }

  /** The stored row of the user, with a count of the requests and dispatches of the last tick. */
  class AutoScanRow {
    var row: Row
    var requests: nat
    var dispatches: nat

    constructor (row: Row)
      ensures this.row == row && requests == 0 && dispatches == 0
    {
      this.row, requests, dispatches := row, 0, 0;
    }

    method RecordTick(now: string, status: string, error: Option<string>, lastSeen: Option<string>, disable: bool)
      modifies this`row
      ensures row == Row(old(row).enabled && !disable,
                         if lastSeen.None? then old(row).lastSeen else lastSeen, Some(now), status, error)
    {
      if lastSeen.None? {
        row := row.(lastRun := Some(now), status := status, error := error);
      } else {
        row := row.(lastSeen := lastSeen, lastRun := Some(now), status := status, error := error);
      }
      if disable { row := row.(enabled := false); }
    }

    method RunUserTick(w: World) returns (outcome: Outcome)
      modifies this
      ensures Result(row, outcome) == Tick(old(row), w)
      ensures requests <= w.maxPages && dispatches <= 1
      ensures dispatches == 1 <==>
                w.hasSession && w.decrypts && exists n :: WalkFinds(w, n)
    {
      FoundIff(w);
      requests, dispatches := 0, 0;
      if !w.hasSession {
        RecordTick(w.now, "error", Some("no_active_session"), row.lastSeen, true);
        return Outcome("error", Some("no_active_session"), 0, 0, None);
      }
      if !w.decrypts {
        RecordTick(w.now, "error", Some("session_decrypt_failed"), row.lastSeen, false);
        return Outcome("error", Some("session_decrypt_failed"), 0, 0, None);
      }
      var lastSeen := row.lastSeen;
      var pages, newAssets, cursor := 0, 0, lastSeen;
      var error: Option<string>, disable := None, false;
      var more := true;
      ghost var stamps: seq<Option<string>> := [];
      ghost var walk := WalkFrom(w.replies, w.maxPages, 0, []);
      while more && pages < w.maxPages
        invariant row == old(row) && dispatches == 0 && requests <= w.maxPages
        invariant newAssets == |stamps| && cursor == Latest(lastSeen, stamps)
        invariant more ==> pages == requests && pages <= w.maxPages && error.None? && !disable
        invariant more ==> walk == WalkFrom(w.replies, w.maxPages, pages, stamps)
        invariant !more ==> walk == Walk(stamps, pages, requests, EndOf(error, disable))
        decreases more, w.maxPages - pages
      {
        var reply := w.replies(requests);
        requests := requests + 1;
        if reply.Unreachable? {
          error, more := Some("upstream_unreachable"), false;
          break;
        }
        pages := pages + 1;
        if reply.status == 401 {
          error, disable, more := Some("upstream_session_expired"), true, false;
          break;
        }
        if reply.status >= 500 {
          error, more := Some("upstream_unreachable"), false;
          break;
        }
        if reply.status >= 400 {
          error, more := Some("upstream_bad_request"), false;
          break;
        }
        if reply.body.NotJson? {
          error, more := Some("upstream_invalid_json"), false;
          break;
        }
        if reply.body.next.Infinite? {
          assert walk.end.Raised?;
          return Crashed;
        }
        newAssets := newAssets + |reply.body.stamps|;
        cursor := MaxTakenAt(reply.body.stamps, cursor);
        LatestConcat(lastSeen, stamps, reply.body.stamps);
        stamps := stamps + reply.body.stamps;
        more := reply.body.next.Page?;
      }
      assert walk.stamps == stamps && walk.pages == pages;
      assert walk.end == EndOf(error, disable);
      if error.Some? {
        RecordTick(w.now, "error", error, lastSeen, disable);
        return Outcome("error", error, newAssets, pages, None);
      }
      var run: Option<int> := None;
      if newAssets > 0 {
        dispatches := dispatches + 1;
        match w.dispatch
        case RaisedOther => return Crashed;
        case RaisedValueError =>
          RecordTick(w.now, "error", Some("session_decrypt_failed"), lastSeen, false);
          return Outcome("error", Some("session_decrypt_failed"), newAssets, pages, None);
        case Rejected =>
        case Submitted(id) => run := Some(id);
      }
      RecordTick(w.now, "ok", None, cursor, false);
      return Outcome("ok", None, newAssets, pages, run);
    }
  }

  // ---- Over many ticks ----

  function RunTicks(row: Row, worlds: seq<World>): Row {
    if worlds == [] then row else Tick(RunTicks(row, worlds[..|worlds| - 1]), worlds[|worlds| - 1]).row
  }

  predicate EndsOk(row: Row, w: World) {
    var r := Tick(row, w);
    r.outcome.Outcome? && r.outcome.status == "ok"
  }

  /** The stamps of all items on the pages of a tick that ended well. */
  function OkStamps(row: Row, w: World): seq<Option<string>> {
    if EndsOk(row, w) then StampsOf(w.replies, Tick(row, w).outcome.pages) else []
  }

  /**
   Main result: a tick ends well after `n` pages exactly if it could read them well and any scan it had to dispatch
   raised nothing; it then reports all items of these pages.
   */
  lemma EndsOkIff(row: Row, w: World, n: nat)
    ensures var o := Tick(row, w).outcome;
            var stamps := StampsOf(w.replies, n);
            EndsOk(row, w) && o.pages == n <==>
              && w.hasSession && w.decrypts && ReadsWell(w.replies, w.maxPages, n)
              && (stamps == [] || w.dispatch == Rejected || w.dispatch.Submitted?)
    ensures var o := Tick(row, w).outcome;
            var stamps := StampsOf(w.replies, n);
            EndsOk(row, w) && o.pages == n ==>
              o == Outcome("ok", None, |stamps|, n, if stamps != []
                  && w.dispatch.Submitted? then Some(w.dispatch.run) else None)
  {
    WalkEndsWellIff(w.replies, w.maxPages, n);
  }

  /** Page `k` is asked for and ends the walk with the code; an answer counts as a page, silence does not. */
  ghost predicate WalkFails(w: World, k: nat, o: Outcome) {
    && StopsAt(w.replies, w.maxPages, k) && k < w.maxPages && o.Outcome? && o.error.Some?
    && Fails(w.replies(k), o.error.value)
    && o == Outcome("error", o.error, |StampsOf(w.replies, k)|, if w.replies(k).Unreachable? then k else k + 1, None)
  }

  /** Main result: which error a tick answers, with the assets found and the pages read until then. */
  lemma EndsInErrorIff(row: Row, w: World, o: Outcome)
    ensures Tick(row, w).outcome == o && o.Outcome? && o.status != "ok" <==>
              || (!w.hasSession && o == Outcome("error", Some("no_active_session"), 0, 0, None))
              || (w.hasSession && !w.decrypts && o == Outcome("error", Some("session_decrypt_failed"), 0, 0, None))
              || (w.hasSession && w.decrypts && exists k :: WalkFails(w, k, o))
              || (w.hasSession && w.decrypts && w.dispatch == RaisedValueError
                  && exists n :: WalkFinds(w, n) && o == Outcome("error", Some("session_decrypt_failed"),
                                                                 |StampsOf(w.replies, n)|, n, None))
  {
    WalkIs(w.replies, w.maxPages);
    var k :| WalksOnlyTo(w.replies, w.maxPages, k, WalkFrom(w.replies, w.maxPages, 0, []));
    var walk := WalkFrom(w.replies, w.maxPages, 0, []);
    WalkEndsWellIff(w.replies, w.maxPages, walk.pages);
    forall n: nat ensures ReadsWell(w.replies, w.maxPages, n) ==> walk.end == Good && walk.pages == n {
      WalkEndsWellIff(w.replies, w.maxPages, n);
    }
    if walk.end.Failed? {
      WalkFailsIff(w.replies, w.maxPages, walk.end.code, walk.end.disable);
      assert w.hasSession && w.decrypts ==> WalkFails(w, k, Tick(row, w).outcome);
    } else if walk.end.Good? && walk.stamps != [] {
      assert WalkFinds(w, walk.pages);
    }
  }

  /** Page `k` is asked for and answered with an infinite next page. */
  ghost predicate OverflowsAt(replies: nat -> Reply, maxPages: nat, k: nat) {
    && StopsAt(replies, maxPages, k) && k < maxPages
    && replies(k).Answer? && replies(k).status < 400 && replies(k).body.Items? && replies(k).body.next == Infinite
  }

  /** ... and when an exception escapes from it. */
  lemma CrashesIff(row: Row, w: World)
    ensures Tick(row, w).outcome == Crashed <==>
              && w.hasSession && w.decrypts
              && ((w.dispatch == RaisedOther && exists n :: WalkFinds(w, n))
                  || exists k :: OverflowsAt(w.replies, w.maxPages, k))
  {
    WalkIs(w.replies, w.maxPages);
    var k :| WalksOnlyTo(w.replies, w.maxPages, k, WalkFrom(w.replies, w.maxPages, 0, []));
    FoundIff(w);
    RaisesIff(w.replies, w.maxPages);
  }

  lemma RaisesIff(replies: nat -> Reply, maxPages: nat)
    ensures WalkFrom(replies, maxPages, 0, []).end.Raised? <==> exists k :: OverflowsAt(replies, maxPages, k)
  {
    WalkIs(replies, maxPages);
    var k :| WalksOnlyTo(replies, maxPages, k, WalkFrom(replies, maxPages, 0, []));
    if WalkFrom(replies, maxPages, 0, []).end.Raised? { assert OverflowsAt(replies, maxPages, k); }
  }

  /** What a tick stores beside the cursor: when it ran and how it ended; nothing if an exception escapes. */
  lemma TickStores(row: Row, w: World)
    ensures var r := Tick(row, w);
            if r.outcome.Crashed? then r.row == row
            else r.row.lastRun == Some(w.now) && r.row.status == r.outcome.status && r.row.error == r.outcome.error
                 && (r.outcome.error.None? <==> r.outcome.status == "ok")
  {
  }

  function AllOkStamps(row: Row, worlds: seq<World>): seq<Option<string>> {
    if worlds == [] then []
    else
      var init := worlds[..|worlds| - 1];
      AllOkStamps(row, init) + OkStamps(RunTicks(row, init), worlds[|worlds| - 1])
  }

  lemma TickCursor(row: Row, w: World)
    ensures Tick(row, w).row.lastSeen == Latest(row.lastSeen, OkStamps(row, w))
  {
    WalkEndsWellIff(w.replies, w.maxPages, WalkFrom(w.replies, w.maxPages, 0, []).pages);
    LatestIsLatest(row.lastSeen, OkStamps(row, w));
  }

  lemma {:induction false} CursorIsFold(row: Row, worlds: seq<World>)
    ensures RunTicks(row, worlds).lastSeen == Latest(row.lastSeen, AllOkStamps(row, worlds))
  {
    if worlds != [] {
      var init, w := worlds[..|worlds| - 1], worlds[|worlds| - 1];
      var before, seen := RunTicks(row, init), AllOkStamps(row, init);
      CursorIsFold(row, init);
      TickCursor(before, w);
      LatestConcat(row.lastSeen, seen, OkStamps(before, w));
    }
  }

  /**
   Main result: after any ticks, the cursor is the latest of its first value and all stamps seen in ticks
   that ended well.
   */
  lemma CursorIsLatest(row: Row, worlds: seq<World>)
    ensures IsLatest(RunTicks(row, worlds).lastSeen, row.lastSeen, AllOkStamps(row, worlds))
  {
    CursorIsFold(row, worlds);
    LatestIsLatest(row.lastSeen, AllOkStamps(row, worlds));
  }

  /** A tick never moves the cursor back, and one that ends in an error does not move it. */
  lemma CursorNeverBack(row: Row, w: World)
    ensures var r := Tick(row, w);
            && (row.lastSeen.Some? ==> r.row.lastSeen.Some? && !Less(r.row.lastSeen.value, row.lastSeen.value))
            && (r.outcome == Crashed || r.outcome.status == "error" ==> r.row.lastSeen == row.lastSeen)
  {
    LatestIsLatest(row.lastSeen, WalkFrom(w.replies, w.maxPages, 0, []).stamps);
    if row.lastSeen.Some? { LessAsymmetric(row.lastSeen.value, row.lastSeen.value); }
  }

  /** A tick disables polling exactly when there is no session or the server says it has expired. */
  lemma DisabledOnlyWithoutSession(row: Row, w: World)
    requires row.enabled
    ensures !Tick(row, w).row.enabled <==>
        !w.hasSession || (w.decrypts && Expires(WalkFrom(w.replies, w.maxPages, 0, [])))
    ensures !Tick(row, w).row.enabled ==>
        Tick(row, w).outcome.error in {Some("no_active_session"), Some("upstream_session_expired")}
  {
    WalkBounded(w.replies, w.maxPages, 0, []);
  }
}
