/**
 The configuration table: one row per dotted path. When writing a nested configuration and reading it
 back gives the same configuration.
 */
module ConfigRepository {
  import opened ConfigTree
  import opened PyText

  // ---- Dotted paths ----

  /** `str.split(".")`. */
  function Split(s: string): (p: KeyPath)
    ensures p != []
  {
    if s == "" then [""]
    else
      var rest := Split(s[1..]);
      if s[0] == '.' then [""] + rest else [[s[0]] + rest[0]] + rest[1..]
  }

  predicate DotFree(s: string) {
    '.' !in s
  }

  predicate DotFreePath(p: KeyPath) {
    forall i :: 0 <= i < |p| ==> DotFree(p[i])
  }

  lemma {:induction false} SplitPlain(k: string)
    requires DotFree(k)
    ensures Split(k) == [k]
  {
    if k != "" {
      assert k == [k[0]] + k[1..];
      SplitPlain(k[1..]);
    }
  }

  lemma {:induction false} SplitDotted(k: string, s: string)
    requires DotFree(k)
    ensures Split(k + "." + s) == [k] + Split(s)
  {
    var t := k + "." + s;
    if k == "" {
      assert t == "." + s && t[1..] == s;
    } else {
      SplitDotted(k[1..], s);
      assert t[1..] == k[1..] + "." + s;
      assert k == [k[0]] + k[1..];
      assert ([k[1..]] + Split(s))[1..] == Split(s);
    }
  }

  lemma {:induction false} SplitJoin(p: KeyPath)
    requires p != [] && DotFreePath(p)
    ensures Split(Join(".", p)) == p
  {
    if |p| == 1 {
      SplitPlain(p[0]);
    } else {
      SplitDotted(p[0], Join(".", p[1..]));
      SplitJoin(p[1..]);
    }
  }

  lemma {:induction false} JoinSplit(s: string)
    ensures DotFreePath(Split(s)) && Join(".", Split(s)) == s
  {
    if s != "" {
      JoinSplit(s[1..]);
      var rest := Split(s[1..]);
      if s[0] == '.' {
        assert ([""] + rest)[1..] == rest;
        assert Join(".", Split(s)) == "" + "." + s[1..];
      } else {
        assert ([[s[0]] + rest[0]] + rest[1..])[1..] == rest[1..];
      }
      assert s == [s[0]] + s[1..];
    }
  }

  // ---- Flattening, as the code writes paths ----

  type Row = (string, Value)

  function PathUnder(prefix: string, key: string): string {
    if prefix != "" then prefix + "." + key else key
  }

  /** All rows the recursion writes; the dictionary it returns keeps one row per path. */
  ghost function FlatRows(d: Entries, prefix: string): set<Row>
    decreases Dict(d), 0
  {
    set k, row | k in d && row in FlatUnder(PathUnder(prefix, k), d[k]) :: row
  }

  ghost function FlatUnder(path: string, v: Value): set<Row>
    decreases v, 1
  {
    if IsLeaf(v) then {(path, v)} else FlatRows(v.entries, path)
  }

  ghost function Paths(rows: set<Row>): set<string> {
    set row | row in rows :: row.0
  }

  /** A dictionary of rows: every path once, with a value that was written for it. */
  ghost predicate IsFlat(flat: map<string, Value>, rows: set<Row>) {
    flat.Keys == Paths(rows) && forall path :: path in flat ==> (path, flat[path]) in rows
  }

  method Flatten(d: Entries, prefix: string) returns (flat: map<string, Value>)
    ensures IsFlat(flat, FlatRows(d, prefix))
    decreases Dict(d)
  {
    flat := map[];
    var left := d.Keys;
    while left != {}
      invariant left <= d.Keys
      invariant IsFlat(flat, RowsFor(d, prefix, d.Keys - left))
      decreases left
    {
      var k :| k in left;
      var path := PathUnder(prefix, k);
      ghost var done := RowsFor(d, prefix, d.Keys - left);
      var more: map<string, Value>;
      if d[k].Dict? && d[k].entries != map[] {
        more := Flatten(d[k].entries, path);
      } else {
        more := map[path := d[k]];
        assert Paths(FlatUnder(path, d[k])) == {path} by { assert (path, d[k]) in FlatUnder(path, d[k]); }
      }
      assert IsFlat(more, FlatUnder(path, d[k]));
      assert RowsFor(d, prefix, d.Keys - (left - {k})) == done + FlatUnder(path, d[k]);
      FlatUpdate(flat, done, more, FlatUnder(path, d[k]));
      flat := flat + more;
      left := left - {k};
    }
    assert RowsFor(d, prefix, d.Keys) == FlatRows(d, prefix);
    assert d.Keys - left == d.Keys;
  }

  ghost function RowsFor(d: Entries, prefix: string, keys: set<string>): set<Row> {
    set k, row | k in d && k in keys && row in FlatUnder(PathUnder(prefix, k), d[k]) :: row
  }

  lemma FlatUpdate(flat: map<string, Value>, rows: set<Row>, more: map<string, Value>, moreRows: set<Row>)
    requires IsFlat(flat, rows) && IsFlat(more, moreRows)
    ensures IsFlat(flat + more, rows + moreRows)
  {
    forall path ensures path in (flat + more).Keys <==> path in Paths(rows + moreRows) {
      if path in flat { assert (path, flat[path]) in rows + moreRows; }
      if path in more { assert (path, more[path]) in rows + moreRows; }
      if path in Paths(rows + moreRows) {
        var row :| row in rows + moreRows && row.0 == path;
        assert row in rows ==> path in Paths(rows);
        assert row in moreRows ==> path in Paths(moreRows);
      }
    }
  }

  // ---- Flattening against key paths ----

  ghost predicate DotFreeKeys(d: Entries)
    decreases Dict(d)
  {
    forall k :: k in d ==> DotFree(k) && (d[k].Dict? ==> DotFreeKeys(d[k].entries))
  }

  lemma JoinUnder(prefix: string, k: string, p: KeyPath)
    requires p != []
    ensures Join(".", [k] + p) == k + "." + Join(".", p)
    ensures prefix + "." + Join(".", [k] + p) == prefix + "." + k + "." + Join(".", p)
  {
    assert ([k] + p)[1..] == p;
    assert prefix + "." + (k + "." + Join(".", p)) == prefix + "." + k + "." + Join(".", p);
  }

  /** Below a non-empty prefix, the path of a written row is the joined path of a leaf ... */
  lemma FlatIsLeaf(d: Entries, prefix: string, row: Row) returns (p: KeyPath)
    requires prefix != "" && row in FlatRows(d, prefix)
    ensures p != [] && (p, row.1) in Leaves(d) && row.0 == prefix + "." + Join(".", p)
    decreases Dict(d)
  {
    var k :| k in d && row in FlatUnder(PathUnder(prefix, k), d[k]);
    p := [k];
    if IsLeaf(d[k]) {
      LeafAt(d, k);
    } else {
      var q := FlatIsLeaf(d[k].entries, prefix + "." + k, row);
      SubLeaf(d, k, q, row.1);
      JoinUnder(prefix, k, q);
      p := [k] + q;
    }
  }

  /** ... and every leaf is written. */
  lemma LeafIsFlat(d: Entries, prefix: string, p: KeyPath, v: Value)
    requires prefix != "" && p != [] && (p, v) in Leaves(d)
    ensures (prefix + "." + Join(".", p), v) in FlatRows(d, prefix)
    decreases Dict(d)
  {
    var k := p[0];
    LeafHead(d, (p, v));
    if IsLeaf(d[k]) {
      LeafAt(d, k);
    } else {
      assert p == [k] + p[1..];
      SubLeaf(d, k, p[1..], v);
      LeafHead(d[k].entries, (p[1..], v));
      LeafIsFlat(d[k].entries, prefix + "." + k, p[1..], v);
      JoinUnder(prefix, k, p[1..]);
    }
    assert (prefix + "." + Join(".", p), v) in FlatUnder(PathUnder(prefix, k), d[k]);
  }

  /** No key has a dot, and an empty key at the top holds no further keys: the prefix would get lost. */
  ghost predicate Recoverable(d: Entries) {
    DotFreeKeys(d) && ("" in d ==> IsLeaf(d[""]))
  }

  lemma TopFlatIsLeaf(d: Entries, row: Row) returns (p: KeyPath)
    requires ("" in d ==> IsLeaf(d[""])) && row in FlatRows(d, "")
    ensures p != [] && (p, row.1) in Leaves(d) && row.0 == Join(".", p)
  {
    var k :| k in d && row in FlatUnder(PathUnder("", k), d[k]);
    p := [k];
    if IsLeaf(d[k]) {
      LeafAt(d, k);
    } else {
      var q := FlatIsLeaf(d[k].entries, k, row);
      SubLeaf(d, k, q, row.1);
      JoinUnder("", k, q);
      p := [k] + q;
    }
  }

  lemma TopLeafIsFlat(d: Entries, p: KeyPath, v: Value)
    requires ("" in d ==> IsLeaf(d[""])) && p != [] && (p, v) in Leaves(d)
    ensures (Join(".", p), v) in FlatRows(d, "")
  {
    var k := p[0];
    LeafHead(d, (p, v));
    if IsLeaf(d[k]) {
      LeafAt(d, k);
    } else {
      assert p == [k] + p[1..];
      SubLeaf(d, k, p[1..], v);
      LeafHead(d[k].entries, (p[1..], v));
      LeafIsFlat(d[k].entries, k, p[1..], v);
      JoinUnder("", k, p[1..]);
    }
    assert (Join(".", p), v) in FlatUnder(PathUnder("", k), d[k]);
  }

  lemma LeafPathDotFree(d: Entries, row: (KeyPath, Value))
    requires DotFreeKeys(d) && row in Leaves(d)
    ensures DotFreePath(row.0)
    decreases Dict(d)
  {
    LeafHead(d, row);
    var k := row.0[0];
    if !IsLeaf(d[k]) {
      assert row.0 == [k] + row.0[1..];
      SubLeaf(d, k, row.0[1..], row.1);
      LeafPathDotFree(d[k].entries, (row.0[1..], row.1));
    } else {
      LeafAt(d, k);
    }
  }

  // ---- Unflattening ----

  ghost function SplitRow(row: Row): (KeyPath, Value) {
    (Split(row.0), row.1)
  }

  /** The rows as the loop uses them, in the order in which they come. */
  ghost function SplitRows(rows: seq<Row>): (r: seq<(KeyPath, Value)>)
    ensures |r| == |rows| && forall i :: 0 <= i < |rows| ==> r[i] == SplitRow(rows[i])
  {
    seq(|rows|, i requires 0 <= i < |rows| => SplitRow(rows[i]))
  }

  method Unflatten(rows: seq<Row>) returns (root: Entries)
    ensures root == Build(SplitRows(rows))
  {
    root := map[];
    for i := 0 to |rows|
      invariant root == Build(SplitRows(rows)[..i])
    {
      var parts := Split(rows[i].0);
      root := Insert(root, parts, rows[i].1);
      assert SplitRows(rows)[..i + 1][..i] == SplitRows(rows)[..i];
    }
    assert SplitRows(rows)[..|rows|] == SplitRows(rows);
  }

  /** The rows of a flat dictionary, in some order. */
  ghost predicate Lists(rows: seq<Row>, flat: map<string, Value>) {
    && (forall i, j :: 0 <= i < j < |rows| ==> rows[i].0 != rows[j].0)
    && (forall row :: row in rows <==> row.0 in flat && flat[row.0] == row.1)
  }

  /** A recoverable configuration comes back, whatever the order of the rows. */
  lemma RecoverableComesBack(d: Entries, flat: map<string, Value>, rows: seq<Row>)
    requires Recoverable(d) && IsFlat(flat, FlatRows(d, "")) && Lists(rows, flat)
    ensures Build(SplitRows(rows)) == d
  {
    var parts := SplitRows(rows);
    forall row ensures row in RowSet(parts) <==> row in Leaves(d) {
      if row in RowSet(parts) {
        var i :| 0 <= i < |parts| && parts[i] == row;
        assert rows[i] in rows;
        var p := TopFlatIsLeaf(d, rows[i]);
        LeafPathDotFree(d, (p, row.1));
        SplitJoin(p);
      }
      if row in Leaves(d) {
        LeafHead(d, row);
        LeafPathDotFree(d, row);
        TopLeafIsFlat(d, row.0, row.1);
        FlatRowKept(d, flat, row);
        assert (Join(".", row.0), row.1) in rows;
        var i :| 0 <= i < |rows| && rows[i] == (Join(".", row.0), row.1);
        SplitJoin(row.0);
        assert parts[i] == row;
      }
    }
    forall i, j | 0 <= i < j < |parts| ensures parts[i].0 != parts[j].0 {
      JoinSplit(rows[i].0);
      JoinSplit(rows[j].0);
    }
    BuildOfLeaves(d, parts);
  }

  /** Under a recoverable configuration no two rows share a path, so the flat dictionary keeps them all. */
  lemma FlatRowKept(d: Entries, flat: map<string, Value>, row: (KeyPath, Value))
    requires Recoverable(d) && IsFlat(flat, FlatRows(d, ""))
    requires row in Leaves(d) && row.0 != []
    ensures Join(".", row.0) in flat && flat[Join(".", row.0)] == row.1
  {
    TopLeafIsFlat(d, row.0, row.1);
    var path := Join(".", row.0);
    assert (path, row.1).0 in Paths(FlatRows(d, ""));
    var p := TopFlatIsLeaf(d, (path, flat[path]));
    LeafPathDotFree(d, row);
    LeafPathDotFree(d, (p, flat[path]));
    SplitJoin(p);
    SplitJoin(row.0);
    LeavesIncomparable(d, row, (p, flat[path]));
  }

  // ---- Nothing else comes back ----

  lemma InsertDotFree(d: Entries, p: KeyPath, v: Value)
    requires p != [] && DotFreePath(p) && DotFreeKeys(d) && IsLeaf(v)
    ensures DotFreeKeys(Insert(d, p, v))
    decreases |p|
  {
    if |p| > 1 {
      var next := if p[0] in d && d[p[0]].Dict? then d[p[0]].entries else map[];
      InsertDotFree(next, p[1..], v);
    }
  }

  /** What is rebuilt never has a dotted key, and has keys under an empty key only if some path begins with a dot. */
  lemma {:induction false} BuildShape(rows: seq<(KeyPath, Value)>)
    requires forall i :: 0 <= i < |rows| ==> rows[i].0 != [] && DotFreePath(rows[i].0) && IsLeaf(rows[i].1)
    ensures DotFreeKeys(Build(rows))
    ensures var d := Build(rows);
            "" in d && !IsLeaf(d[""]) ==> exists i :: 0 <= i < |rows| && |rows[i].0| > 1 && rows[i].0[0] == ""
    decreases |rows|
  {
    if rows != [] {
      var n := |rows| - 1;
      var init, last := rows[..n], rows[n];
      BuildShape(init);
      InsertDotFree(Build(init), last.0, last.1);
      var d := Build(rows);
      if "" in d && !IsLeaf(d[""]) {
        if last.0[0] == "" {
          assert |rows[n].0| > 1;
        } else {
          var i :| 0 <= i < |init| && |init[i].0| > 1 && init[i].0[0] == "";
          assert rows[i] == init[i];
        }
      }
    }
  }

  /** Leading empty keys leave no trace in a path, so no path begins with a dot. */
  lemma NoLeadingDot(d: Entries, prefix: string, row: Row)
    requires DotFreeKeys(d) && row in FlatRows(d, prefix)
    requires prefix != "" ==> prefix[0] != '.'
    ensures row.0 != "" ==> row.0[0] != '.'
    ensures IsLeaf(row.1)
    decreases Dict(d)
  {
    var k :| k in d && row in FlatUnder(PathUnder(prefix, k), d[k]);
    var path := PathUnder(prefix, k);
    assert path != "" ==> path[0] != '.' by { if prefix == "" && k != "" { assert k[0] in k; } }
    if !IsLeaf(d[k]) { NoLeadingDot(d[k].entries, path, row); }
  }

  /**
   Main result: flattening a nested configuration and unflattening its rows, in any order, gives the same
   configuration if and only if no key has a dot and an empty key at the top level holds no further keys.
   */
  lemma RoundTripIffRecoverable(d: Entries, flat: map<string, Value>, rows: seq<Row>)
    requires IsFlat(flat, FlatRows(d, "")) && Lists(rows, flat)
    ensures Build(SplitRows(rows)) == d <==> Recoverable(d)
  {
    if Recoverable(d) {
      RecoverableComesBack(d, flat, rows);
    } else if DotFreeKeys(d) {
      var parts := SplitRows(rows);
      forall i | 0 <= i < |parts|
        ensures DotFreePath(parts[i].0) && IsLeaf(parts[i].1) && !(|parts[i].0| > 1 && parts[i].0[0] == "")
      {
        JoinSplit(rows[i].0);
        assert rows[i] in rows;
        NoLeadingDot(d, "", rows[i]);
      }
      BuildShape(parts);
    } else {
      RebuiltDotFree(d, flat, rows);
    }
  }

  lemma RebuiltDotFree(d: Entries, flat: map<string, Value>, rows: seq<Row>)
    requires IsFlat(flat, FlatRows(d, "")) && Lists(rows, flat)
    ensures DotFreeKeys(Build(SplitRows(rows)))
  {
    var parts := SplitRows(rows);
    forall i | 0 <= i < |parts| ensures DotFreePath(parts[i].0) && IsLeaf(parts[i].1) {
      JoinSplit(rows[i].0);
      assert rows[i] in rows;
      WrittenIsLeaf(d, "", rows[i]);
    }
    BuildShape(parts);
  }

  lemma WrittenIsLeaf(d: Entries, prefix: string, row: Row)
    requires row in FlatRows(d, prefix)
    ensures IsLeaf(row.1)
    decreases Dict(d)
  {
    var k :| k in d && row in FlatUnder(PathUnder(prefix, k), d[k]);
    if !IsLeaf(d[k]) { WrittenIsLeaf(d[k].entries, PathUnder(prefix, k), row); }
  }

  // ---- The other way round ----

  /**
   Unflattening rows of which no path begins another and flattening the result gives the same rows if and
   only if no path begins with a dot.
   */
  lemma FlattenUndoesUnflatten(rows: seq<Row>)
    requires PrefixFree(SplitRows(rows))
    ensures FlatRows(Build(SplitRows(rows)), "") == (set row | row in rows) <==>
              forall i :: 0 <= i < |rows| ==> rows[i].0 != "" ==> rows[i].0[0] != '.'
  {
    var parts := SplitRows(rows);
    var d := Build(parts);
    BuildLeaves(parts);
    forall i | 0 <= i < |rows| ensures DotFreePath(parts[i].0) && IsLeaf(parts[i].1) { JoinSplit(rows[i].0); }
    BuildShape(parts);
    if forall i :: 0 <= i < |rows| ==> rows[i].0 != "" ==> rows[i].0[0] != '.' {
      forall row ensures row in FlatRows(d, "") <==> row in rows {
        if row in FlatRows(d, "") { FlatRowFromRows(rows, row); }
        if row in rows { RowFromFlat(rows, row); }
      }
    } else {
      var i :| 0 <= i < |rows| && rows[i].0 != "" && rows[i].0[0] == '.';
      if rows[i] in FlatRows(d, "") { NoLeadingDot(d, "", rows[i]); }
      assert rows[i] in rows && rows[i] in (set row | row in rows);
    }
  }

  lemma FlatRowFromRows(rows: seq<Row>, row: Row)
    requires PrefixFree(SplitRows(rows)) && Leaves(Build(SplitRows(rows))) == RowSet(SplitRows(rows))
    requires var d := Build(SplitRows(rows)); ("" in d ==> IsLeaf(d[""])) && row in FlatRows(d, "")
    ensures row in rows
  {
    var parts := SplitRows(rows);
    var p := TopFlatIsLeaf(Build(parts), row);
    var i :| 0 <= i < |parts| && parts[i] == (p, row.1);
    JoinSplit(rows[i].0);
  }

  lemma RowFromFlat(rows: seq<Row>, row: Row)
    requires PrefixFree(SplitRows(rows)) && Leaves(Build(SplitRows(rows))) == RowSet(SplitRows(rows))
    requires var d := Build(SplitRows(rows)); ("" in d ==> IsLeaf(d[""])) && row in rows
    ensures row in FlatRows(Build(SplitRows(rows)), "")
  {
    var parts := SplitRows(rows);
    var i :| 0 <= i < |rows| && rows[i] == row;
    assert parts[i] in RowSet(parts);
    JoinSplit(row.0);
    TopLeafIsFlat(Build(parts), Split(row.0), row.1);
  }

  /** Where one path begins another, the order of the rows does matter. */
  lemma OrderMattersForPrefixes()
    ensures var one, two := Leaf(Int(1)), Leaf(Int(2));
            && Build(SplitRows([("a", one), ("a.b", two)])) == map["a" := Dict(map["b" := two])]
            && Build(SplitRows([("a.b", two), ("a", one)])) == map["a" := one]
  {
    var r, s: Row := ("a", Leaf(Int(1))), ("a.b", Leaf(Int(2)));
    SplitPlain("a");
    SplitPlain("b");
    SplitDotted("a", "b");
    assert "a" + "." + "b" == "a.b";
    assert Split("a") == ["a"] && Split("a.b") == ["a", "b"];
    BuildTwo(r, s);
    BuildTwo(s, r);
  }

  lemma BuildTwo(r: Row, s: Row)
    ensures Build(SplitRows([r, s])) == Insert(Insert(map[], Split(r.0), r.1), Split(s.0), s.1)
  {
    var both := SplitRows([r, s]);
    assert both == [SplitRow(r), SplitRow(s)];
    assert both[..1] == [SplitRow(r)];
    assert [SplitRow(r)][..0] == [];
    assert Build([SplitRow(r)]) == Insert(Build([]), Split(r.0), r.1);
  }
}
