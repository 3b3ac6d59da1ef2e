/**
 Paging over an upstream ranking by offset cursors: the pages are slices of the de-duplicated ranking.
 */
module SmartSearch {
  import opened Decimal
  import opened PyText

  const MAX_SIZE: nat := 1000

  /** An entry of the upstream ranking: its id, or `None` when it is no mapping or its id is no string. */
  datatype Item = Item(id: Option<string>)

  predicate WellFormed(item: Item) {
    item.id.Some? && item.id.value != ""
  }

  /** The ids of the well-formed items, each at its first occurrence. */
  function Hits(items: seq<Item>): seq<string> {
    if items == [] then []
    else
      var hits, last := Hits(items[..|items| - 1]), items[|items| - 1];
      if WellFormed(last) && last.id.value !in hits then hits + [last.id.value] else hits
  }

  method HitsFromItems(items: seq<Item>) returns (hits: seq<string>)
    ensures hits == Hits(items)
  {
    hits := [];
    var seen := {};
    for i := 0 to |items|
      invariant hits == Hits(items[..i]) && seen == set h | h in hits
    {
      assert items[..i + 1][..i] == items[..i];
      if items[i].id.None? || items[i].id.value == "" || items[i].id.value in seen { continue; }
      seen := seen + {items[i].id.value};
      hits := hits + [items[i].id.value];
    }
    assert items[..|items|] == items;
  }

  const PREFIX := "semantic:"

  function CursorText(offset: nat): string {
    PREFIX + IntText(offset)
  }

  /** `None` is a `ValueError`: the cursor is invalid. */
  function SemanticOffset(cursor: Option<string>): Option<nat> {
    if cursor.None? || cursor.value == "" then Some(0)
    else if !(PREFIX <= cursor.value) then None
    else
      var offset := ParseInt(cursor.value[|PREFIX|..]);
      if offset.None? || offset.value < 0 then None else Some(offset.value)
  }

  lemma CursorRoundTrip(offset: nat)
    ensures SemanticOffset(Some(CursorText(offset))) == Some(offset)
    ensures CursorText(offset) == "semantic:" + IntText(offset)
  {
    ParseIntText(offset);
    assert CursorText(offset)[|PREFIX|..] == IntText(offset);
  }

  /** A missing or empty cursor starts the search; any other is a number after the prefix, or invalid. */
  lemma OffsetIff(cursor: Option<string>, n: nat)
    ensures SemanticOffset(cursor) == Some(n) <==>
              || (cursor in {None, Some("")} && n == 0)
              || (cursor.Some? && "semantic:" <= cursor.value && ParseInt(cursor.value[9..]) == Some(n))
  {
  }

  datatype SearchPage = SearchPage(hits: seq<string>, next: Option<string>) | InvalidCursor

  function Min(a: nat, b: nat): nat {
    if a < b then a else b
  }

  /** The upstream answer to a request for `size` items of a fixed ranking. */
  function Upstream(ranking: seq<Item>, size: nat): seq<Item> {
    ranking[..Min(size, |ranking|)]
  }

  /** Python's `s[lo:hi]`. */
  function Slice(s: seq<string>, lo: nat, hi: nat): seq<string> {
    if lo >= |s| || lo >= hi then [] else s[lo..Min(hi, |s|)]
  }

  function Search(ranking: seq<Item>, query: string, cursor: Option<string>, size: int): SearchPage {
    if Strip(query) == "" then SearchPage([], None)
    else if SemanticOffset(cursor).None? then InvalidCursor
    else
      var offset, n := SemanticOffset(cursor).value, ClampPageSize(size);
      CutPage(Hits(Upstream(ranking, Min(offset + n + 1, MAX_SIZE))), offset, n)
  }

  /** The page from the offset on, and a cursor if there is a hit more than the page holds. */
  function CutPage(all: seq<string>, offset: nat, n: nat): SearchPage {
    var page := Slice(all, offset, offset + n + 1);
    if |page| > n then SearchPage(page[..n], Some(CursorText(offset + n))) else SearchPage(page, None)
  }

  /** A search without a word finds nothing, whatever the cursor; any other is refused exactly for an invalid one. */
  lemma RefusedIff(ranking: seq<Item>, query: string, cursor: Option<string>, size: int)
    ensures var page := Search(ranking, query, cursor, size);
            && (Words(query) == [] ==> page == SearchPage([], None))
            && (page == InvalidCursor <==> Words(query) != [] && forall n: nat :: SemanticOffset(cursor) != Some(n))
  {
    BlankIffWordless(query);
  }

  // ---- De-duplication ----

  lemma {:induction false} HitsDistinct(items: seq<Item>)
    ensures forall i, j :: 0 <= i < j < |Hits(items)| ==> Hits(items)[i] != Hits(items)[j]
    ensures forall id :: id in Hits(items) <==> id != "" && Item(Some(id)) in items
    ensures |Hits(items)| <= |items|
  {
    if items != [] {
      var init, last := items[..|items| - 1], items[|items| - 1];
      assert items == init + [last];
      HitsDistinct(init);
    }
  }

  /** More items give more hits at the end, never others before. */
  lemma {:induction false} HitsGrow(items: seq<Item>, m: nat)
    requires m <= |items|
    ensures Hits(items[..m]) <= Hits(items)
    ensures |Hits(items)| <= |Hits(items[..m])| + |items| - m
    decreases |items|
  {
    if m == |items| {
      assert items[..m] == items;
    } else {
      var init := items[..|items| - 1];
      HitsGrow(init, m);
      assert init[..m] == items[..m];
    }
  }

  /** All hits there are to find: those in the part of the ranking that a request can reach. */
  function AllHits(ranking: seq<Item>): seq<string> {
    Hits(Upstream(ranking, MAX_SIZE))
  }

  lemma UpstreamGrows(ranking: seq<Item>, m: nat, n: nat)
    requires m <= n
    ensures Hits(Upstream(ranking, m)) <= Hits(Upstream(ranking, n))
    ensures |Hits(Upstream(ranking, n))| <= |Hits(Upstream(ranking, m))| + n - m
  {
    HitsGrow(Upstream(ranking, n), Min(m, |ranking|));
    assert Upstream(ranking, n)[..Min(m, |ranking|)] == Upstream(ranking, m);
  }

  // ---- Following the cursors ----

  datatype Progress = Progress(got: seq<string>, cursor: Option<string>, finished: bool)

  function Request(ranking: seq<Item>, query: string, p: Progress, size: int): Progress {
    if p.finished then p
    else
      match Search(ranking, query, p.cursor, size)
      case InvalidCursor => p.(finished := true)
      case SearchPage(hits, next) => Progress(p.got + hits, next, next.None?)
  }

  type Client = (Progress, nat) -> Progress

  /** A client that follows the cursors and asks for `sizes(n)` hits in its n-th request. */
  function Follower(ranking: seq<Item>, query: string, sizes: nat -> int): Client {
    (p: Progress, n: nat) => Request(ranking, query, p, sizes(n))
  }

  function Iterate(client: Client, n: nat): Progress {
    if n == 0 then Progress([], None, false) else client(Iterate(client, n - 1), n - 1)
  }

  lemma {:induction false} IterateKeeps(client: Client, inv: (Progress, nat) -> bool, n: nat)
    requires inv(Progress([], None, false), 0)
    requires forall p: Progress, k: nat :: inv(p, k) ==> inv(client(p, k), k + 1)
    ensures inv(Iterate(client, n), n)
  {
    if n > 0 { IterateKeeps(client, inv, n - 1); }
  }

  function Fetch(ranking: seq<Item>, query: string, sizes: nat -> int, n: nat): Progress {
    Iterate(Follower(ranking, query, sizes), n)
  }

  /** The first hits of the whole list have been seen, and the cursor says how many. */
  ghost predicate OnTrack(ranking: seq<Item>, p: Progress, n: nat) {
    && p.got <= AllHits(ranking)
    && (!p.finished ==> |p.got| >= n && SemanticOffset(p.cursor) == Some(|p.got|))
  }

  /** The hits a request can see that asks for `n` hits from offset `k`. */
  function Seen(ranking: seq<Item>, k: nat, n: nat): seq<string> {
    Hits(Upstream(ranking, Min(k + n + 1, MAX_SIZE)))
  }

  lemma SeenSize(ranking: seq<Item>, k: nat, n: nat)
    ensures |Seen(ranking, k, n)| <= k + n + 1 && |Seen(ranking, k, n)| <= MAX_SIZE
    ensures Seen(ranking, k, n) <= AllHits(ranking)
  {
    HitsDistinct(Upstream(ranking, Min(k + n + 1, MAX_SIZE)));
    UpstreamGrows(ranking, Min(k + n + 1, MAX_SIZE), MAX_SIZE);
  }

  lemma CutPageIs(seen: seq<string>, k: nat, n: nat)
    requires |seen| <= k + n + 1
    ensures CutPage(seen, k, n) ==
              if |seen| > k + n then SearchPage(seen[k..k + n], Some(CursorText(k + n)))
              else SearchPage(if k <= |seen| then seen[k..] else [], None)
  {
    if |seen| > k + n { assert seen[k..][..n] == seen[k..k + n]; }
  }

  ghost predicate Reached(ranking: seq<Item>, p: Progress) {
    p.got <= AllHits(ranking) && !p.finished && SemanticOffset(p.cursor) == Some(|p.got|)
  }

  /**
   A request goes on with the next hits if it sees one more than it was asked for; otherwise it ends with
   what it sees.
   */
  lemma RequestStep(ranking: seq<Item>, query: string, p: Progress, size: int)
    requires Strip(query) != "" && Reached(ranking, p)
    ensures var k, n := |p.got|, ClampPageSize(size);
            var q, seen := Request(ranking, query, p, size), Seen(ranking, k, n);
            && seen <= AllHits(ranking)
            && (|seen| > k + n ==> q.got == seen[..k + n] && !q.finished && SemanticOffset(q.cursor) == Some(k + n))
            && (|seen| <= k + n ==> q.finished && q.got == if k <= |seen| then seen else p.got)
  {
    var k, n, all := |p.got|, ClampPageSize(size), AllHits(ranking);
    var seen := Seen(ranking, k, n);
    SeenSize(ranking, k, n);
    CutPageIs(seen, k, n);
    assert Search(ranking, query, p.cursor, size) == CutPage(seen, k, n);
    CursorRoundTrip(k + n);
    if k <= |seen| { PrefixParts(all, seen, p.got, n); }
  }

  /** Two beginnings of one list, and what the longer adds to the shorter. */
  lemma PrefixParts(all: seq<string>, seen: seq<string>, got: seq<string>, n: nat)
    requires seen <= all && got <= all && |got| <= |seen|
    ensures got + seen[|got|..] == seen
    ensures |seen| > |got| + n ==> got + seen[|got|..|got| + n] == seen[..|got| + n]
  {
    assert got == seen[..|got|];
  }

  lemma RequestOnTrack(ranking: seq<Item>, query: string, p: Progress, size: int, n: nat)
    requires Strip(query) != "" && OnTrack(ranking, p, n)
    ensures OnTrack(ranking, Request(ranking, query, p, size), n + 1)
  {
    if !p.finished { RequestStep(ranking, query, p, size); }
  }

  /**
   Main result: whatever page sizes are asked for, what a client has seen is at any time a first part of the
   de-duplicated ranking: no hit is repeated, skipped or out of order.
   */
  lemma PagesAreSlices(ranking: seq<Item>, query: string, sizes: nat -> int, n: nat)
    requires Strip(query) != ""
    ensures OnTrack(ranking, Fetch(ranking, query, sizes, n), n)
    ensures var got := Fetch(ranking, query, sizes, n).got; forall i, j :: 0 <= i < j < |got| ==> got[i] != got[j]
  {
    var inv := (p: Progress, k: nat) => OnTrack(ranking, p, k);
    forall p: Progress, k: nat | inv(p, k) ensures inv(Follower(ranking, query, sizes)(p, k), k + 1) {
      RequestOnTrack(ranking, query, p, sizes(k), k);
    }
    IterateKeeps(Follower(ranking, query, sizes), inv, n);
    HitsDistinct(Upstream(ranking, MAX_SIZE));
  }

  /** Following the cursors always comes to an end. */
  lemma PagesEnd(ranking: seq<Item>, query: string, sizes: nat -> int)
    requires Strip(query) != ""
    ensures Fetch(ranking, query, sizes, |AllHits(ranking)| + 1).finished
  {
    PagesAreSlices(ranking, query, sizes, |AllHits(ranking)| + 1);
  }

  // ---- When everything is visited ----

  function FirstHits(ranking: seq<Item>, n: nat): nat {
    |Hits(Upstream(ranking, n))|
  }

  /**
   All hits stand before the first malformed or repeated item, or among the first two items, which every
   request asks for.
   */
  predicate Prompt(ranking: seq<Item>) {
    var h := |AllHits(ranking)|;
    FirstHits(ranking, h) == h || FirstHits(ranking, 2) == h
  }

  /** On a prompt ranking, a request that sees fewer hits than it asks for sees them all. */
  lemma SeesAll(ranking: seq<Item>, r: nat)
    requires Prompt(ranking) && 2 <= r <= MAX_SIZE && (FirstHits(ranking, r) < r || r == MAX_SIZE)
    ensures Hits(Upstream(ranking, r)) == AllHits(ranking)
  {
    var h := |AllHits(ranking)|;
    UpstreamGrows(ranking, r, MAX_SIZE);
    UpstreamGrows(ranking, 2, r);
    if h <= r { UpstreamGrows(ranking, h, r); } else { UpstreamGrows(ranking, r, h); }
  }

  /** A request on a prompt ranking ends only with all hits. */
  lemma RequestComplete(ranking: seq<Item>, query: string, p: Progress, size: int)
    requires Strip(query) != "" && Prompt(ranking) && Reached(ranking, p)
    ensures var q := Request(ranking, query, p, size); q.finished ==> q.got == AllHits(ranking)
  {
    var k, m := |p.got|, ClampPageSize(size);
    var q, seen := Request(ranking, query, p, size), Seen(ranking, k, m);
    RequestStep(ranking, query, p, size);
    if |seen| <= k + m {
      SeesAll(ranking, Min(k + m + 1, MAX_SIZE));
      assert seen == AllHits(ranking);
      assert |p.got| <= |seen|;
    } else {
      assert !q.finished;
    }
  }

  lemma CompleteWhenPrompt(ranking: seq<Item>, query: string, sizes: nat -> int, n: nat)
    requires Strip(query) != "" && Prompt(ranking)
    ensures Fetch(ranking, query, sizes, n).finished ==> Fetch(ranking, query, sizes, n).got == AllHits(ranking)
  {
    var inv := (p: Progress, k: nat) => OnTrack(ranking, p, k) && (p.finished ==> p.got == AllHits(ranking));
    forall p: Progress, k: nat | inv(p, k) ensures inv(Follower(ranking, query, sizes)(p, k), k + 1) {
      RequestOnTrack(ranking, query, p, sizes(k), k);
      if !p.finished { RequestComplete(ranking, query, p, sizes(k)); }
    }
    IterateKeeps(Follower(ranking, query, sizes), inv, n);
  }

  function SingleHits(): nat -> int {
    _ => 1
  }

  /** Asking for single hits, paging goes on exactly while the items are flawless. */
  ghost predicate OneByOne(ranking: seq<Item>, p: Progress, n: nat) {
    && (!p.finished ==> |p.got| == n < MAX_SIZE && (n > 0 ==> FirstHits(ranking, n + 1) == n + 1))
    && (p.finished && p.got == AllHits(ranking) ==> Prompt(ranking))
  }

  lemma StepOneByOne(ranking: seq<Item>, query: string, p: Progress, k: nat)
    requires Strip(query) != "" && OnTrack(ranking, p, k) && OneByOne(ranking, p, k)
    ensures OneByOne(ranking, Request(ranking, query, p, 1), k + 1)
  {
    if !p.finished {
      RequestStep(ranking, query, p, 1);
      SeenSize(ranking, k, 1);
      UpstreamGrows(ranking, k + 1, Min(k + 2, MAX_SIZE));
      UpstreamGrows(ranking, k + 1, MAX_SIZE);
    }
  }

  /**
   Main result: following the cursors ends with all hits, for every schedule of page sizes, if and only if
   the ranking is prompt.
   */
  lemma CompleteIffPrompt(ranking: seq<Item>, query: string)
    requires Strip(query) != ""
    ensures (forall sizes: nat -> int, n: nat :: Fetch(ranking, query, sizes, n).finished ==>
              Fetch(ranking, query, sizes, n).got == AllHits(ranking)) <==> Prompt(ranking)
  {
    if Prompt(ranking) {
      forall sizes: nat -> int, n: nat | Fetch(ranking, query, sizes, n).finished
        ensures Fetch(ranking, query, sizes, n).got == AllHits(ranking)
      {
        CompleteWhenPrompt(ranking, query, sizes, n);
      }
    } else {
      PagesEnd(ranking, query, SingleHits());
      var inv := (p: Progress, k: nat) => OnTrack(ranking, p, k) && OneByOne(ranking, p, k);
      forall p: Progress, k: nat | inv(p, k) ensures inv(Follower(ranking, query, SingleHits())(p, k), k + 1) {
        RequestOnTrack(ranking, query, p, 1, k);
        StepOneByOne(ranking, query, p, k);
      }
      IterateKeeps(Follower(ranking, query, SingleHits()), inv, |AllHits(ranking)| + 1);
    }
  }

  /** In particular: distinct, well-formed items are visited up to the cap, each once. */
  lemma DistinctItemsAreComplete(ranking: seq<Item>, query: string, sizes: nat -> int)
    requires Strip(query) != "" && forall i :: 0 <= i < |ranking| ==> WellFormed(ranking[i])
    requires forall i, j :: 0 <= i < j < |ranking| ==> ranking[i] != ranking[j]
    ensures exists n :: Fetch(ranking, query, sizes, n).finished
                        && |Fetch(ranking, query, sizes, n).got| == Min(|ranking|, 1000)
                        && forall i :: 0 <= i < Min(|ranking|, 1000) ==>
                            ranking[i].id == Some(Fetch(ranking, query, sizes, n).got[i])
  {
    var items := Upstream(ranking, MAX_SIZE);
    HitsOfDistinct(items);
    PagesEnd(ranking, query, sizes);
    CompleteWhenPrompt(ranking, query, sizes, |AllHits(ranking)| + 1);
  }

  lemma {:induction false} HitsOfDistinct(items: seq<Item>)
    requires forall i :: 0 <= i < |items| ==> WellFormed(items[i])
    requires forall i, j :: 0 <= i < j < |items| ==> items[i] != items[j]
    ensures |Hits(items)| == |items| && forall i :: 0 <= i < |items| ==> items[i].id == Some(Hits(items)[i])
  {
    if items != [] {
      var init, last := items[..|items| - 1], items[|items| - 1];
      HitsOfDistinct(init);
      forall i | 0 <= i < |init| ensures Hits(init)[i] != last.id.value { assert items[i] != last; }
    }
  }

  /**
   A ranking that is not prompt: asked for single hits, the search ends after the first, as its second
   item repeats it.
   */
  lemma RepeatedItemEndsSearch(a: string, b: string, query: string)
    requires a != "" && b != "" && a != b && Strip(query) != ""
    ensures var ranking := [Item(Some(a)), Item(Some(a)), Item(Some(b))];
            && !Prompt(ranking) && AllHits(ranking) == [a, b]
            && Fetch(ranking, query, SingleHits(), 1) == Progress([a], None, true)
  {
    var x, y := Item(Some(a)), Item(Some(b));
    var ranking := [x, x, y];
    TwoHits(a, b);
    assert Upstream(ranking, MAX_SIZE) == ranking && Upstream(ranking, 2) == [x, x];
    EndsAtOnce(ranking, a, query);
    assert Fetch(ranking, query, SingleHits(), 0) == Progress([], None, false);
    assert FirstHits(ranking, 2) == 1;
  }

  lemma EndsAtOnce(ranking: seq<Item>, a: string, query: string)
    requires Strip(query) != "" && Hits(Upstream(ranking, 2)) == [a]
    ensures Request(ranking, query, Progress([], None, false), 1) == Progress([a], None, true)
  {
    assert Search(ranking, query, None, 1) == CutPage([a], 0, 1);
    CutPageIs([a], 0, 1);
  }

  lemma TwoHits(a: string, b: string)
    requires a != "" && b != "" && a != b
    ensures var x, y := Item(Some(a)), Item(Some(b)); Hits([x, x]) == [a] && Hits([x, x, y]) == [a, b]
  {
    var x, y := Item(Some(a)), Item(Some(b));
    assert [x][..0] == [] && [x, x][..1] == [x] && [x, x, y][..2] == [x, x];
    assert Hits([x]) == [a];
  }
}
