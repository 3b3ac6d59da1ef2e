/**
 The paged asset listings of the service store: each page starts after the last id of the page before.
 Following the cursors gives the whole listing, once and in order.
 */
module KeysetPaging {
  import opened PyText
  import opened StringOrder

  // ---- Order of ids ----

  predicate Ascending(ids: seq<string>) {
    forall i, j :: 0 <= i < j < |ids| ==> Less(ids[i], ids[j])
  }

  // ---- The listings ----

  /** An asset with what the listings join to it; `event` is the visible event it is shown under, if any. */
  datatype Row = Row(id: string, acted: bool, analysis: Option<AnalysisRow>, event: Option<string>)

  /** The columns of an analysis that the review listing filters by. */
  datatype AnalysisRow = AnalysisRow(mediaKind: string, queuesJson: string, ocrText: Option<string>, json: string)

  /** The two listings with their filters; an empty string filters nothing. */
  datatype Listing =
    | UserAssets(event: string)
    | ReviewAssets(queue: string, mediaKind: string, q: string, event: string)

  /** SQLite's `LIKE`: `%` stands for any text, `_` for any character, and ASCII letters match in either case. */
  predicate Like(text: string, pattern: string)
    decreases |text| + |pattern|
  {
    if pattern == "" then text == ""
    else if pattern[0] == '%' then Like(text, pattern[1..]) || (text != "" && Like(text[1..], pattern))
    else text != "" && MatchesChar(text[0], pattern[0]) && Like(text[1..], pattern[1..])
  }

  predicate MatchesChar(c: char, p: char) {
    p == '_' || LowerAscii(p) == LowerAscii(c)
  }

  predicate Matches(l: Listing, r: Row) {
    && (l.event != "" ==> r.event == Some(l.event))
    && match l
       case UserAssets(_) => r.acted
       case ReviewAssets(queue, mediaKind, q, _) =>
         && r.analysis.Some?
         && var a := r.analysis.value;
         && (queue != "" ==> Like(a.queuesJson, "%\"" + queue + "\"%"))
         && (mediaKind != "" ==> a.mediaKind == mediaKind)
         && (q != "" ==> MentionsText(r.id, a, "%" + q + "%"))
  }

  predicate MentionsText(id: string, a: AnalysisRow, pattern: string) {
    (a.ocrText.Some? && Like(a.ocrText.value, pattern)) || Like(a.json, pattern) || Like(id, pattern)
  }

  // ---- What the filters let through ----

  /** Some stretch of the text fits the pattern. */
  ghost predicate Contains(text: string, pattern: string) {
    exists i, j :: 0 <= i <= j <= |text| && Like(text[i..j], pattern)
  }

  /** The text up to `i` fits the one pattern, and the text from `j` on the other. */
  ghost predicate Around(text: string, a: string, b: string, i: nat, j: nat) {
    i <= j <= |text| && Like(text[..i], a) && Like(text[j..], b)
  }

  /** Without percent signs a pattern fits character by character ... */
  lemma {:induction false} LikePlain(text: string, pattern: string)
    requires '%' !in pattern
    ensures Like(text, pattern) <==>
              |text| == |pattern|
              && forall i :: 0 <= i < |text| ==> pattern[i] == '_' || SameLetter(text[i], pattern[i])
  {
    if text != "" && pattern != "" {
      LikePlain(text[1..], pattern[1..]);
      assert forall i :: 0 < i < |text| ==> text[i] == text[1..][i - 1];
      assert forall i :: 0 < i < |pattern| ==> pattern[i] == pattern[1..][i - 1];
    }
  }

  /** The same character, or the two cases of one of the letters A to Z. */
  ghost predicate SameLetter(c: char, d: char) {
    c == d || ('A' <= c <= 'Z' && d as int == c as int + 32) || ('A' <= d <= 'Z' && c as int == d as int + 32)
  }

  /** ... and a percent sign stands for any stretch of text. */
  lemma {:induction false} PercentIsAnyText(text: string, a: string, b: string)
    ensures Like(text, a + "%" + b) <==> exists i, j :: Around(text, a, b, i, j)
    decreases |text| + |a|
  {
    var p := a + "%" + b;
    if a == "" {
      assert p[1..] == b;
      if text != "" { PercentIsAnyText(text[1..], a, b); }
      StartsEmpty(text, b);
    } else {
      assert p[1..] == a[1..] + "%" + b && p[0] == a[0];
      if a[0] == '%' { PercentIsAnyText(text, a[1..], b); }
      if text != "" { PercentIsAnyText(text[1..], if a[0] == '%' then a else a[1..], b); }
      if a[0] == '%' { StartsAny(text, a, b); } else { StartsWithChar(text, a, b); }
    }
  }

  lemma ShiftAround(text: string, a: string, b: string, i: nat, j: nat)
    requires text != "" && i <= j < |text|
    ensures Around(text[1..], a, b, i, j) <==> Like(text[..i + 1][1..], a) && Like(text[j + 1..], b)
  {
    assert text[1..][..i] == text[..i + 1][1..] && text[1..][j..] == text[j + 1..];
  }

  lemma StartsEmpty(text: string, b: string)
    ensures (exists i, j :: Around(text, "", b, i, j)) <==>
              Like(text, b) || (text != "" && exists i, j :: Around(text[1..], "", b, i, j))
  {
    assert text[0..] == text && text[..0] == "";
    if Like(text, b) { assert Around(text, "", b, 0, 0); }
    if text != "" {
      if i: nat, j: nat :| Around(text[1..], "", b, i, j) {
        ShiftAround(text, "", b, i, j);
        assert Around(text, "", b, 0, j + 1);
      }
    }
    if i: nat, j: nat :| Around(text, "", b, i, j) {
      if j > 0 {
        assert text[..1][1..] == "";
        ShiftAround(text, "", b, 0, j - 1);
        assert Around(text[1..], "", b, 0, j - 1);
      }
    }
  }

  lemma StartsAny(text: string, a: string, b: string)
    requires a != "" && a[0] == '%'
    ensures (exists i, j :: Around(text, a, b, i, j)) <==>
              (exists i, j :: Around(text, a[1..], b, i, j))
              || (text != "" && exists i, j :: Around(text[1..], a, b, i, j))
  {
    if i: nat, j: nat :| Around(text, a[1..], b, i, j) { assert Around(text, a, b, i, j); }
    if text != "" {
      if i: nat, j: nat :| Around(text[1..], a, b, i, j) {
        ShiftAround(text, a, b, i, j);
        assert Around(text, a, b, i + 1, j + 1);
      }
    }
    if i: nat, j: nat :| Around(text, a, b, i, j) {
      if Like(text[..i], a[1..]) {
        assert Around(text, a[1..], b, i, j);
      } else {
        ShiftAround(text, a, b, i - 1, j - 1);
        assert Around(text[1..], a, b, i - 1, j - 1);
      }
    }
  }

  lemma StartsWithChar(text: string, a: string, b: string)
    requires a != "" && a[0] != '%'
    ensures (exists i, j :: Around(text, a, b, i, j)) <==>
              text != "" && MatchesChar(text[0], a[0]) && exists i, j :: Around(text[1..], a[1..], b, i, j)
  {
    if i: nat, j: nat :| Around(text, a, b, i, j) {
      ShiftAround(text, a[1..], b, i - 1, j - 1);
      assert Around(text[1..], a[1..], b, i - 1, j - 1);
    }
    if text != "" && MatchesChar(text[0], a[0]) {
      if i: nat, j: nat :| Around(text[1..], a[1..], b, i, j) {
        ShiftAround(text, a[1..], b, i, j);
        assert Around(text, a, b, i + 1, j + 1);
      }
    }
  }

  /** A pattern between percent signs looks for a stretch that fits it. */
  lemma LikeContains(text: string, pattern: string)
    ensures Like(text, "%" + pattern + "%") <==> Contains(text, pattern)
  {
    PercentIsAnyText(text, "%" + pattern, "");
    assert "%" + pattern + "%" == ("%" + pattern) + "%" + "";
    if i: nat, j: nat :| Around(text, "%" + pattern, "", i, j) {
      ContainsAtEnd(text, pattern, i);
    }
    if i, j :| 0 <= i <= j <= |text| && Like(text[i..j], pattern) {
      ContainsAtEnd(text, pattern, j);
      assert Like(text[|text|..], "");
      assert text[..j][i..] == text[i..j];
      assert Around(text, "%" + pattern, "", j, |text|);
    }
  }

  lemma ContainsAtEnd(text: string, pattern: string, j: nat)
    requires j <= |text|
    ensures Like(text[..j], "%" + pattern) <==> exists i :: 0 <= i <= j && Like(text[i..j], pattern)
  {
    assert "" + "%" + pattern == "%" + pattern;
    PercentIsAnyText(text[..j], "", pattern);
    if i: nat, k: nat :| Around(text[..j], "", pattern, i, k) {
      assert text[..j][k..] == text[k..j];
    }
    if i :| 0 <= i <= j && Like(text[i..j], pattern) {
      assert text[..j][i..] == text[i..j] && text[..j][..0] == "";
      assert Around(text[..j], "", pattern, 0, i);
    }
  }

  /** The text of an asset that a query is looked for in. */
  ghost predicate Mentions(r: Row, q: string) {
    && r.analysis.Some?
    && exists text :: text in [r.id, r.analysis.value.json] + OcrText(r.analysis.value) && Contains(text, q)
  }

  ghost function OcrText(a: AnalysisRow): seq<string> {
    if a.ocrText.None? then [] else [a.ocrText.value]
  }

  /** Main result: the assets of a user are those acted on, in the event asked for, if any; ... */
  lemma UserAssetsAre(event: string, r: Row)
    ensures Matches(UserAssets(event), r) <==> r.acted && (event == "" || r.event == Some(event))
  {
  }

  /**
   ... those to review are the analysed ones that have the quoted queue, the kind of media and the event
   asked for, and mention the query, each as far as it is asked for.
   */
  lemma ReviewAssetsAre(queue: string, mediaKind: string, q: string, event: string, r: Row)
    ensures Matches(ReviewAssets(queue, mediaKind, q, event), r) <==>
              && (event == "" || r.event == Some(event))
              && r.analysis.Some?
              && (queue == "" || Contains(r.analysis.value.queuesJson, "\"" + queue + "\""))
              && mediaKind in {"", r.analysis.value.mediaKind}
              && (q == "" || Mentions(r, q))
  {
    if r.analysis.Some? {
      var a := r.analysis.value;
      assert "%\"" + queue + "\"%" == "%" + ("\"" + queue + "\"") + "%";
      LikeContains(a.queuesJson, "\"" + queue + "\"");
      LikeContains(a.json, q);
      LikeContains(r.id, q);
      if a.ocrText.Some? { LikeContains(a.ocrText.value, q); }
      var texts := [r.id, a.json] + OcrText(a);
      assert r.id == texts[0] && a.json == texts[1] && (a.ocrText.Some? ==> a.ocrText.value == texts[2]);
    }
  }

  /** The whole listing: the ids of all matching rows, in the order of the table's key. */
  function AllIds(rows: seq<Row>, l: Listing): seq<string> {
    if rows == [] then []
    else AllIds(rows[..|rows| - 1], l) + (if Matches(l, rows[|rows| - 1]) then [rows[|rows| - 1].id] else [])
  }

  predicate SortedRows(rows: seq<Row>) {
    forall i, j :: 0 <= i < j < |rows| ==> Less(rows[i].id, rows[j].id)
  }

  /** `if cursor:` treats a missing and an empty cursor alike. */
  predicate NoCursor(cursor: Option<string>) {
    cursor.None? || cursor.value == ""
  }

  function After(ids: seq<string>, cursor: Option<string>): seq<string> {
    if NoCursor(cursor) || ids == [] then ids
    else After(ids[..|ids| - 1], cursor) + (if Less(cursor.value, ids[|ids| - 1]) then [ids[|ids| - 1]] else [])
  }

  datatype Page = Page(ids: seq<string>, next: Option<string>)

  function PageOf(ids: seq<string>, cursor: Option<string>, size: int): Page {
    var rest, n := After(ids, cursor), ClampPageSize(size);
    if |rest| > n then Page(rest[..n], Some(rest[n - 1])) else Page(rest, None)
  }

  /** One request: the query for one row more than the page holds, then the page and its cursor. */
  method ListPage(rows: seq<Row>, l: Listing, cursor: Option<string>, size: int) returns (page: Page)
    ensures page == PageOf(AllIds(rows, l), cursor, size)
  {
    var n := ClampPageSize(size);
    var found := Select(rows, l, cursor, n + 1);
    if |found| > n {
      return Page(found[..n], Some(found[n - 1]));
    }
    return Page(found, None);
  }

  /** The condition on a row, in the order of the table's key, up to the limit. */
  method Select(rows: seq<Row>, l: Listing, cursor: Option<string>, limit: nat) returns (found: seq<string>)
    ensures found == Take(After(AllIds(rows, l), cursor), limit)
  {
    found := [];
    for i := 0 to |rows|
      invariant found == Take(FoundBefore(rows, l, cursor, i), limit)
    {
      var id := rows[i].id;
      var hit := Matches(l, rows[i]) && (NoCursor(cursor) || Less(cursor.value, id));
      FoundNext(rows, l, cursor, i);
      if |found| < limit && hit {
        found := found + [id];
      }
    }
    assert rows[..|rows|] == rows;
  }

  ghost function FoundBefore(rows: seq<Row>, l: Listing, cursor: Option<string>, i: nat): seq<string> {
    After(AllIds(Take(rows, i), l), cursor)
  }

  /** What one more row adds to the rows found. */
  lemma FoundNext(rows: seq<Row>, l: Listing, cursor: Option<string>, i: nat)
    requires i < |rows|
    ensures FoundBefore(rows, l, cursor, i + 1) ==
              FoundBefore(rows, l, cursor, i)
              + (if Matches(l, rows[i]) && (NoCursor(cursor) || Less(cursor.value, rows[i].id))
                 then [rows[i].id] else [])
  {
    assert rows[..i + 1][..i] == rows[..i];
    AfterSnoc(AllIds(rows[..i], l), rows[i].id, cursor);
  }

  lemma AfterSnoc(ids: seq<string>, id: string, cursor: Option<string>)
    ensures After(ids + [id], cursor) ==
              After(ids, cursor) + (if NoCursor(cursor) || Less(cursor.value, id) then [id] else [])
    ensures ids + [] == ids
  {
    assert (ids + [id])[..|ids|] == ids;
  }

  lemma {:induction false} AllIdsAscending(rows: seq<Row>, l: Listing)
    requires SortedRows(rows)
    ensures Ascending(AllIds(rows, l))
    ensures forall id :: id in AllIds(rows, l) <==>
        exists i :: 0 <= i < |rows| && rows[i].id == id && Matches(l, rows[i])
  {
    if rows != [] {
      var n := |rows| - 1;
      var init := rows[..n];
      AllIdsAscending(init, l);
      assert forall i :: 0 <= i < n ==> init[i] == rows[i];
      forall i | 0 <= i < |AllIds(init, l)| ensures Less(AllIds(init, l)[i], rows[n].id) {
        assert AllIds(init, l)[i] in AllIds(init, l);
        var m :| 0 <= m < n && init[m].id == AllIds(init, l)[i] && Matches(l, init[m]);
      }
      forall id
        ensures id in AllIds(rows, l) <==> exists i :: 0 <= i < |rows| && rows[i].id == id && Matches(l, rows[i])
      {
        if id in AllIds(init, l) {
          var i :| 0 <= i < n && init[i].id == id && Matches(l, init[i]);
          assert rows[i].id == id;
        }
      }
    }
  }

  // ---- Following the cursors ----

  /** After an id of the listing comes the rest of the listing. */
  lemma {:induction false} AfterIsRest(ids: seq<string>, k: nat)
    requires Ascending(ids) && k < |ids| && ids[k] != ""
    ensures After(ids, Some(ids[k])) == ids[k + 1..]
    decreases |ids|
  {
    var n := |ids| - 1;
    var init, last := ids[..n], ids[n];
    LessAsymmetric(ids[k], last);
    if k < n {
      AfterIsRest(init, k);
      assert ids[k + 1..] == init[k + 1..] + [last];
    } else {
      AfterNone(init, ids[k]);
    }
  }

  /** Any text may come as a cursor: what comes after it is the end of the listing, from the first greater id on. */
  lemma {:induction false} AfterIsGreater(ids: seq<string>, cursor: string, k: nat)
    requires Ascending(ids) && cursor != "" && k <= |ids|
    requires k < |ids| ==> Less(cursor, ids[k])
    requires k > 0 ==> !Less(cursor, ids[k - 1])
    ensures After(ids, Some(cursor)) == ids[k..]
    decreases |ids|
  {
    var n := |ids| - 1;
    if k <= n {
      if k < n { LessTransitive(cursor, ids[k], ids[n]); }
      if k == n { NoneGreater(ids[..n], cursor); } else { AfterIsGreater(ids[..n], cursor, k); }
      assert ids[..n][k..] + [ids[n]] == ids[k..];
    } else {
      NoneGreater(ids, cursor);
    }
  }

  lemma {:induction false} NoneGreater(ids: seq<string>, cursor: string)
    requires Ascending(ids) && cursor != "" && (ids != [] ==> !Less(cursor, ids[|ids| - 1]))
    ensures After(ids, Some(cursor)) == []
  {
    if |ids| > 1 {
      var n := |ids| - 1;
      if Less(cursor, ids[n - 1]) { LessTransitive(cursor, ids[n - 1], ids[n]); }
      NoneGreater(ids[..n], cursor);
    }
  }

  lemma {:induction false} AfterNone(ids: seq<string>, c: string)
    requires c != "" && forall i :: 0 <= i < |ids| ==> Less(ids[i], c)
    ensures After(ids, Some(c)) == []
  {
    if ids != [] {
      LessAsymmetric(ids[|ids| - 1], c);
      AfterNone(ids[..|ids| - 1], c);
    }
  }

  datatype Progress = Progress(got: seq<string>, cursor: Option<string>, finished: bool)

  /** What a client has seen after `n` requests that follow the cursors; `sizes` are the page sizes it asks for. */
  function Fetch(ids: seq<string>, sizes: nat -> int, n: nat): Progress {
    if n == 0 then Progress([], None, false) else Request(ids, Fetch(ids, sizes, n - 1), sizes(n - 1))
  }

  function Request(ids: seq<string>, p: Progress, size: int): Progress {
    if p.finished then p
    else
      var page := PageOf(ids, p.cursor, size);
      Progress(p.got + page.ids, page.next, page.next.None?)
  }

  /** The one way in which paging goes wrong: the first page is the empty id alone, and more would follow. */
  predicate Stuck(ids: seq<string>, sizes: nat -> int) {
    |ids| > 1 && ids[0] == "" && ClampPageSize(sizes(0)) == 1
  }

  /** The cursor of a client that has seen the first `k` ids. */
  predicate CursorAt(ids: seq<string>, k: nat, cursor: Option<string>) {
    k <= |ids| && if k == 0 then cursor.None? else cursor == Some(ids[k - 1]) && ids[k - 1] != ""
  }

  /** One request from there: the next ids, and a cursor exactly if there are still more. */
  lemma NextPage(ids: seq<string>, k: nat, cursor: Option<string>, size: int)
    requires Ascending(ids) && k <= |ids| && CursorAt(ids, k, cursor)
    ensures var page, m := PageOf(ids, cursor, size), k + ClampPageSize(size);
            if m < |ids| then ids[..k] + page.ids == ids[..m] && page.next == Some(ids[m - 1])
            else ids[..k] + page.ids == ids && page.next.None?
  {
    if k > 0 { AfterIsRest(ids, k - 1); }
    assert After(ids, cursor) == ids[k..];
  }

  /** A first part of the listing seen, at least one id a request. */
  ghost predicate OnTrack(ids: seq<string>, p: Progress, n: nat) {
    && p.got <= ids
    && (p.finished ==> p.got == ids)
    && (!p.finished ==> |p.got| >= n && CursorAt(ids, |p.got|, p.cursor))
  }

  lemma RequestOnTrack(ids: seq<string>, p: Progress, size: int, n: nat)
    requires Ascending(ids) && OnTrack(ids, p, n)
    requires !p.finished && p.got == [] && |ids| > 1 && ids[0] == "" ==> ClampPageSize(size) != 1
    ensures OnTrack(ids, Request(ids, p, size), n + 1)
  {
    if !p.finished {
      var k := |p.got|;
      var m := k + ClampPageSize(size);
      NextPage(ids, k, p.cursor, size);
      var q := Request(ids, p, size);
      if m < |ids| {
        if m > 1 { assert Less(ids[0], ids[m - 1]); }
        assert ids[m - 1] != "";
        assert q.got == ids[..m] && |q.got| == m;
      } else {
        assert q.got == ids && q.finished;
        assert ids[..|ids|] == ids;
      }
    }
  }

  /** Each request extends the part of the listing seen so far. */
  lemma {:induction false} FetchIsPrefix(ids: seq<string>, sizes: nat -> int, n: nat)
    requires Ascending(ids) && !Stuck(ids, sizes)
    ensures OnTrack(ids, Fetch(ids, sizes, n), n)
  {
    if n > 0 {
      FetchIsPrefix(ids, sizes, n - 1);
      var p := Fetch(ids, sizes, n - 1);
      assert n == 1 || p.finished || p.got != [];
      RequestOnTrack(ids, p, sizes(n - 1), n - 1);
    }
  }

  /** After `n` requests the client is done and has seen exactly the listing. */
  predicate Complete(ids: seq<string>, sizes: nat -> int, n: nat) {
    Fetch(ids, sizes, n).finished && Fetch(ids, sizes, n).got == ids
  }

  /**
   Main result. Whatever page sizes are asked for, following the cursors ends with the whole listing, every
   id once and in order, if and only if the first page does not consist of the empty id alone with more to come.
   */
  lemma PagingCompleteIff(ids: seq<string>, sizes: nat -> int)
    requires Ascending(ids)
    ensures (exists n :: Complete(ids, sizes, n)) <==> !Stuck(ids, sizes)
  {
    if Stuck(ids, sizes) {
      forall n ensures !Complete(ids, sizes, n) { StuckNeverCompletes(ids, sizes, n); }
    } else {
      CompletesInTime(ids, sizes);
    }
  }

  lemma CompletesInTime(ids: seq<string>, sizes: nat -> int)
    requires Ascending(ids) && !Stuck(ids, sizes)
    ensures Complete(ids, sizes, |ids| + 1)
  {
    FetchIsPrefix(ids, sizes, |ids| + 1);
  }

  lemma StuckNeverCompletes(ids: seq<string>, sizes: nat -> int, n: nat)
    requires Ascending(ids) && Stuck(ids, sizes)
    ensures !Complete(ids, sizes, n)
  {
    FetchStuck(ids, sizes, n);
    assert Less(ids[0], ids[1]);
    assert ids[..2] != ["", ""] by { assert ids[..2][1] == ids[1]; }
  }

  /** In that case the second request starts over, and the empty id is seen twice. */
  lemma {:induction false} FetchStuck(ids: seq<string>, sizes: nat -> int, n: nat)
    requires Stuck(ids, sizes)
    ensures n == 1 ==> Fetch(ids, sizes, n) == Progress([""], Some(""), false)
    ensures n >= 2 ==> |Fetch(ids, sizes, n).got| >= 2 && Fetch(ids, sizes, n).got[..2] == ["", ""]
    ensures n == 0 ==> !Fetch(ids, sizes, n).finished
  {
    if n == 1 {
      assert Fetch(ids, sizes, 0).cursor.None?;
      assert ids[..1] == [""];
    } else if n >= 2 {
      FetchStuck(ids, sizes, n - 1);
      if n == 2 {
        var page := PageOf(ids, Some(""), sizes(1));
        assert page.ids[0] == "";
        assert Fetch(ids, sizes, 2).got == [""] + page.ids;
      }
    }
  }

  /** For a table of assets with non-empty ids: every matching asset, exactly once, for any filters and page sizes. */
  lemma EveryMatchingAssetOnce(rows: seq<Row>, l: Listing, sizes: nat -> int)
    requires SortedRows(rows) && forall i :: 0 <= i < |rows| ==> rows[i].id != ""
    ensures exists n :: Complete(AllIds(rows, l), sizes, n)
    ensures var ids := AllIds(rows, l); forall i, j :: 0 <= i < j < |ids| ==> ids[i] != ids[j]
    ensures forall i :: 0 <= i < |rows| && Matches(l, rows[i]) ==> rows[i].id in AllIds(rows, l)
  {
    var ids := AllIds(rows, l);
    AllIdsAscending(rows, l);
    if |ids| > 0 { assert ids[0] in ids; }
    PagingCompleteIff(ids, sizes);
    forall i, j | 0 <= i < j < |ids| ensures ids[i] != ids[j] { LessAsymmetric(ids[i], ids[j]); }
  }
}
