/** The configuration table with its encoded values: what is stored decodes to what was stored. */
module ConfigStore {
  import opened Decimal
  import opened PyText
  import opened ConfigTree
  import opened ConfigRepository

  // ---- Encoding ----

  datatype ValueType = Boolean | Number | Array | Object | String

  /** A stored text; the text of a JSON document is represented by the document. */
  datatype Raw = Plain(text: string) | Json(document: Value)

  datatype Stored = Stored(raw: Raw, valueType: ValueType)

  function Lower(s: string): string {
    seq(|s|, i requires 0 <= i < |s| => LowerAscii(s[i]))
  }

  function DetectType(v: Value): ValueType {
    match v
    case Leaf(Bool(_)) => Boolean
    case Leaf(Int(_)) => Number
    case Leaf(Float(_)) => Number
    case Leaf(List(_)) => Array
    case Dict(_) => Object
    case Leaf(_) => String
  }

  function Encode(v: Value): Raw {
    match v
    case Leaf(Bool(b)) => Plain(if b then "true" else "false")
    case Leaf(Int(n)) => Plain(IntText(n))
    case Leaf(Float(repr)) => Plain(repr)
    case Leaf(List(_)) => Json(v)
    case Dict(_) => Json(v)
    case Leaf(Text(s)) => Plain(s)
    case Leaf(Null) => Plain("None")
  }

  /** Reading a number back: a text with a point as a float, any other as an integer, which fails if it is none. */
  function DecodeNumber(s: string): Option<Value> {
    if '.' in s then (IntHasNoPoint(s); Some(Leaf(Float(s))))
    else if ParseInt(s).None? then None
    else Some(Leaf(Int(ParseInt(s).value)))
  }

  /** `None` is an exception: a text that is no number, or no JSON document. */
  function Decode(raw: Raw, valueType: ValueType): Option<Value> {
    match (valueType, raw)
    case (Boolean, Plain(s)) => Some(Leaf(Bool(Lower(s) == "true")))
    case (Number, Plain(s)) => DecodeNumber(s)
    case (Array, Json(v)) => Some(v)
    case (Object, Json(v)) => Some(v)
    case (String, Plain(s)) => Some(Leaf(Text(s)))
    case _ => None
  }

  function Store(v: Value): Stored {
    Stored(Encode(v), DetectType(v))
  }

  function Load(s: Stored): Option<Value> {
    Decode(s.raw, s.valueType)
  }

  /** A float printed without a point, such as `1e+16` or `inf`: it is read back as an integer, which fails. */
  predicate Unreadable(v: Value) {
    v.Leaf? && v.scalar.Float? && '.' !in v.scalar.repr
  }

  /** Every other value decodes to itself, but null comes back as the string "None". */
  lemma LoadStore(v: Value)
    ensures Load(Store(v)) ==
              if Unreadable(v) then None else if v == Leaf(Null) then Some(Leaf(Text("None"))) else Some(v)
  {
    match v
    case Leaf(Bool(_)) => assert Lower("true") == "true" && Lower("false")[0] == 'f';
    case Leaf(Int(n)) => ReadInt(n);
    case _ =>
  }

  lemma ReadInt(n: int)
    ensures DecodeNumber(IntText(n)) == Some(Leaf(Int(n)))
  {
    ParseIntText(n);
    if '.' in IntText(n) { IntHasNoPoint(IntText(n)); }
  }

  /** What stands in the table: numbers, booleans and null as Python prints them, under the type they have. */
  lemma StoredForms(v: Value, text: string)
    ensures v == Leaf(Bool(true)) && text == "true" ==> Store(v) == Stored(Plain(text), Boolean)
    ensures v == Leaf(Bool(false)) && text == "false" ==> Store(v) == Stored(Plain(text), Boolean)
    ensures v == Leaf(Null) && text == "None" ==> Store(v) == Stored(Plain(text), String)
    ensures v == Leaf(Text(text)) ==> Store(v) == Stored(Plain(text), String)
    ensures v.Leaf? && v.scalar.Float? && v.scalar.repr == text ==> Store(v) == Stored(Plain(text), Number)
    ensures v.Leaf? && v.scalar.Int? && IntText(v.scalar.n) == text ==> Store(v) == Stored(Plain(text), Number)
    ensures v.Leaf? && v.scalar.List? ==> Store(v) == Stored(Json(v), Array)
    ensures v.Dict? ==> Store(v) == Stored(Json(v), Object)
  {
  }

  /** A stored boolean is true if its text is `true` in any case of letters, and false for any other text. */
  lemma BooleanRead(text: string)
    ensures Load(Stored(Plain(text), Boolean)) ==
              Some(Leaf(Bool(|text| == 4 && forall i :: 0 <= i < 4 ==> text[i] == "true"[i] || text[i] == "TRUE"[i])))
  {
    if |text| == 4 {
      assert Lower(text) == "true" <==> forall i :: 0 <= i < 4 ==> Lower(text)[i] == "true"[i];
      forall i | 0 <= i < 4 ensures Lower(text)[i] == "true"[i] <==> text[i] == "true"[i] || text[i] == "TRUE"[i] {
        var c, d := text[i], "true"[i];
        assert LowerAscii(c) == d <==> c == d || (c as int == d as int - 32);
      }
    }
  }

  // ---- The table ----

  ghost function StoredTable(flat: map<string, Value>): map<string, Stored> {
    map path | path in flat :: Store(flat[path])
  }

  ghost predicate Loads(table: map<string, Stored>) {
    forall path :: path in table ==> Load(table[path]).Some?
  }

  ghost function Loaded(table: map<string, Stored>): map<string, Value>
    requires Loads(table)
  {
    map path | path in table :: Load(table[path]).value
  }

  /** Reading raises exactly if some row does not decode; otherwise it unflattens the decoded rows, in some order. */
  ghost predicate ReadsAs(table: map<string, Stored>, root: Option<Entries>) {
    && (root.Some? <==> Loads(table))
    && (root.Some? ==> exists rows :: Lists(rows, Loaded(table)) && root.value == Build(SplitRows(rows)))
  }

  ghost predicate NoNulls(d: Entries)
    decreases Dict(d)
  {
    forall k :: k in d ==> d[k] != Leaf(Null) && (d[k].Dict? ==> NoNulls(d[k].entries))
  }

  lemma WrittenNotNull(d: Entries, prefix: string, row: Row)
    requires NoNulls(d) && row in FlatRows(d, prefix)
    ensures row.1 != Leaf(Null)
    decreases Dict(d)
  {
    var k :| k in d && row in FlatUnder(PathUnder(prefix, k), d[k]);
    if !IsLeaf(d[k]) { WrittenNotNull(d[k].entries, PathUnder(prefix, k), row); }
  }

  lemma InsertNotNull(d: Entries, p: KeyPath, v: Value)
    requires p != [] && NoNulls(d) && IsLeaf(v) && v != Leaf(Null)
    ensures NoNulls(Insert(d, p, v))
    decreases |p|
  {
    if |p| > 1 {
      InsertNotNull(if p[0] in d && d[p[0]].Dict? then d[p[0]].entries else map[], p[1..], v);
    }
  }

  lemma {:induction false} BuildNotNull(rows: seq<(KeyPath, Value)>)
    requires forall i :: 0 <= i < |rows| ==> rows[i].0 != [] && IsLeaf(rows[i].1) && rows[i].1 != Leaf(Null)
    ensures NoNulls(Build(rows))
    decreases |rows|
  {
    if rows != [] {
      var n := |rows| - 1;
      BuildNotNull(rows[..n]);
      InsertNotNull(Build(rows[..n]), rows[n].0, rows[n].1);
    }
  }

  lemma LoadedTable(flat: map<string, Value>)
    ensures Loads(StoredTable(flat)) <==> forall path :: path in flat ==> !Unreadable(flat[path])
    ensures Loads(StoredTable(flat)) ==>
              var all := Loaded(StoredTable(flat));
              all.Keys == flat.Keys
              && forall path :: path in flat ==>
                   all[path] == (if flat[path] == Leaf(Null) then Leaf(Text("None")) else flat[path])
  {
    var table := StoredTable(flat);
    forall path | path in flat { LoadStore(flat[path]); }
    assert forall path :: path in flat ==> path in table && Load(table[path]) == Load(Store(flat[path]));
  }

  /** Where every row decodes, the configuration comes back if and only if it is recoverable and holds no null. */
  lemma LoadedRoundTrip(d: Entries, flat: map<string, Value>, rows: seq<Row>)
    requires IsFlat(flat, FlatRows(d, "")) && Loads(StoredTable(flat))
    requires Lists(rows, Loaded(StoredTable(flat)))
    ensures Build(SplitRows(rows)) == d <==> Recoverable(d) && NoNulls(d)
  {
    LoadedTable(flat);
    var all := Loaded(StoredTable(flat));
    if NoNulls(d) {
      forall path | path in flat ensures flat[path] != Leaf(Null) { WrittenNotNull(d, "", (path, flat[path])); }
      assert all == flat;
      RoundTripIffRecoverable(d, flat, rows);
    } else {
      var parts := SplitRows(rows);
      forall i | 0 <= i < |parts| ensures IsLeaf(parts[i].1) && parts[i].1 != Leaf(Null) {
        assert rows[i] in rows;
        WrittenIsLeaf(d, "", (rows[i].0, flat[rows[i].0]));
      }
      BuildNotNull(parts);
    }
  }

  ghost predicate Readable(d: Entries) {
    forall row :: row in Leaves(d) ==> !Unreadable(row.1)
  }

  /** In a recoverable configuration every leaf has its row, so one unreadable leaf makes the whole table unreadable. */
  lemma LoadsIffReadable(d: Entries, flat: map<string, Value>)
    requires IsFlat(flat, FlatRows(d, "")) && Recoverable(d)
    ensures Loads(StoredTable(flat)) <==> Readable(d)
  {
    LoadedTable(flat);
    forall path | path in flat && Unreadable(flat[path]) ensures !Readable(d) {
      var p := TopFlatIsLeaf(d, (path, flat[path]));
    }
    forall row | row in Leaves(d) && Unreadable(row.1) ensures exists path :: path in flat && Unreadable(flat[path]) {
      LeafHead(d, row);
      FlatRowKept(d, flat, row);
    }
  }

  /**
   Main result: what is written to an empty table by one bulk upsert reads back as the same nested
   configuration if and only if that configuration is recoverable, holds no null, and holds no float that
   prints without a point. One such float makes reading a recoverable configuration fail altogether.
   */
  lemma StoreRoundTrip(d: Entries, flat: map<string, Value>, root: Option<Entries>)
    requires IsFlat(flat, FlatRows(d, "")) && ReadsAs(StoredTable(flat), root)
    ensures root == Some(d) <==> Recoverable(d) && NoNulls(d) && Readable(d)
    ensures Recoverable(d) ==> (root.None? <==> !Readable(d))
  {
    if Recoverable(d) { LoadsIffReadable(d, flat); }
    if root.Some? {
      var rows :| Lists(rows, Loaded(StoredTable(flat))) && root.value == Build(SplitRows(rows));
      LoadedRoundTrip(d, flat, rows);
    }
  }

  // ---- Writing over a table ----

  /** What a row of the table reads back as is what stands in `d` at its path. */
  ghost predicate StandsIn(d: Entries, path: string, stored: Stored) {
    Load(stored).Some? && ValueAt(d, Split(path)) == Load(stored)
  }

  lemma WrittenStandsIn(d: Entries, flat: map<string, Value>, path: string)
    requires IsFlat(flat, FlatRows(d, "")) && Recoverable(d) && NoNulls(d) && Readable(d) && path in flat
    ensures IsLeaf(flat[path]) && Load(Store(flat[path])) == Some(flat[path]) && StandsIn(d, path, Store(flat[path]))
  {
    var row := (path, flat[path]);
    var p := TopFlatIsLeaf(d, row);
    WrittenNotNull(d, "", row);
    LeafHead(d, (p, row.1));
    LoadStore(row.1);
    LeafPathDotFree(d, (p, row.1));
    SplitJoin(p);
    LeafIsValue(d, p, row.1);
  }

  /** Rows that all stand in `d`, with every leaf of `d` among them, give `d` back in any order. */
  lemma StandingRowsGive(d: Entries, flat: map<string, Value>, all: map<string, Value>, rows: seq<Row>)
    requires IsFlat(flat, FlatRows(d, "")) && Recoverable(d) && Lists(rows, all)
    requires forall path :: path in all ==> ValueAt(d, Split(path)) == Some(all[path])
    requires forall path :: path in flat ==> path in all && all[path] == flat[path]
    ensures Build(SplitRows(rows)) == d
  {
    var parts := SplitRows(rows);
    forall i | 0 <= i < |parts| ensures ValueAt(d, parts[i].0) == Some(parts[i].1) { assert rows[i] in rows; }
    BuildKnown(parts, d);
    forall row | row in Leaves(d) ensures row in Leaves(Build(parts)) {
      LeafHead(d, row);
      FlatRowKept(d, flat, row);
      LeafPathDotFree(d, row);
      SplitJoin(row.0);
      assert (Join(".", row.0), row.1) in rows;
      var i :| 0 <= i < |rows| && rows[i] == (Join(".", row.0), row.1);
      assert parts[i] == row;
    }
    LeavesInjective(Build(parts), d);
  }

  lemma {:induction false} ListOf(all: map<string, Value>) returns (rows: seq<Row>)
    ensures Lists(rows, all)
    decreases |all|
  {
    rows := [];
    if all.Keys != {} {
      var path :| path in all;
      var rest := ListOf(all - {path});
      rows := rest + [(path, all[path])];
      forall i | 0 <= i < |rest| ensures rest[i].0 != path { assert rest[i] in rest; }
    }
  }

  /**
   Main result, for a bulk upsert over a table that can be read. Reading gives the written configuration, in
   whatever order the rows come, if and only if every row that was there before and was not overwritten holds
   what stands in that configuration at its path.
   */
  lemma OverwriteReadsBackIff(before: map<string, Stored>, d: Entries, flat: map<string, Value>)
    requires IsFlat(flat, FlatRows(d, "")) && Recoverable(d) && NoNulls(d) && Readable(d) && Loads(before)
    ensures (forall root :: ReadsAs(before + StoredTable(flat), root) ==> root == Some(d)) <==>
              forall path :: path in before && path !in flat ==> StandsIn(d, path, before[path])
  {
    var table := before + StoredTable(flat);
    OverTable(before, d, flat);
    if path :| path in before && path !in flat && !StandsIn(d, path, before[path]) {
      assert table[path] == before[path];
      SpoiledBy(table, d, path);
    } else {
      forall root | ReadsAs(table, root) ensures root == Some(d) { StandingTableGives(table, d, flat, root); }
    }
  }

  /** A row that does not stand in `d`, read last, spoils the result. */
  lemma SpoiledBy(table: map<string, Stored>, d: Entries, path: string)
    requires Loads(table) && path in table && !StandsIn(d, path, table[path])
    ensures exists root :: ReadsAs(table, root) && root != Some(d)
  {
    var all := Loaded(table);
    var init := ListOf(all - {path});
    var rows := init + [(path, all[path])];
    forall i | 0 <= i < |init| ensures init[i].0 != path { assert init[i] in init; }
    assert Lists(rows, all);
    InsertedValue(Build(SplitRows(rows)[..|init|]), Split(path), all[path]);
    assert ReadsAs(table, Some(Build(SplitRows(rows))));
  }

  lemma StandingTableGives(table: map<string, Stored>, d: Entries, flat: map<string, Value>, root: Option<Entries>)
    requires IsFlat(flat, FlatRows(d, "")) && Recoverable(d) && ReadsAs(table, root)
    requires forall path :: path in table ==> StandsIn(d, path, table[path])
    requires forall path :: path in flat ==> path in table && Load(table[path]) == Some(flat[path])
    ensures root == Some(d)
  {
    assert Loads(table);
    var all := Loaded(table);
    var rows :| Lists(rows, all) && root.value == Build(SplitRows(rows));
    StandingRowsGive(d, flat, all, rows);
  }

  /** The table after the upsert: the written rows as they were written, the others as they were. */
  lemma OverTable(before: map<string, Stored>, d: Entries, flat: map<string, Value>)
    requires IsFlat(flat, FlatRows(d, "")) && Recoverable(d) && NoNulls(d) && Readable(d) && Loads(before)
    ensures var table := before + StoredTable(flat);
            && Loads(table) && table.Keys == before.Keys + flat.Keys
            && (forall path :: path in flat ==> Load(table[path]) == Some(flat[path]) && StandsIn(d, path, table[path]))
            && (forall path :: path in before && path !in flat ==> table[path] == before[path])
  {
    forall path | path in flat
      ensures Load(Store(flat[path])) == Some(flat[path]) && StandsIn(d, path, Store(flat[path]))
    {
      WrittenStandsIn(d, flat, path);
    }
  }

  /**
   Over a table that holds no non-empty dictionary in one row, as bulk upserts leave it: if and only if no
   path remains.
   */
  lemma OverwriteLeavesIff(before: map<string, Stored>, d: Entries, flat: map<string, Value>)
    requires IsFlat(flat, FlatRows(d, "")) && Recoverable(d) && NoNulls(d) && Readable(d) && Loads(before)
    requires forall path :: path in before ==> IsLeaf(Load(before[path]).value)
    ensures (forall root :: ReadsAs(before + StoredTable(flat), root) ==> root == Some(d)) <==> before.Keys <= flat.Keys
  {
    OverwriteReadsBackIff(before, d, flat);
    forall path | path in before && StandsIn(d, path, before[path]) ensures path in flat {
      var v := Load(before[path]).value;
      LeafIsValue(d, Split(path), v);
      FlatRowKept(d, flat, (Split(path), v));
      JoinSplit(path);
    }
  }

  class ConfigDB {
    var table: map<string, Stored>

    constructor ()
      ensures table == map[]
    {
      table := map[];
    }

    method Upsert(path: string, value: Value)
      modifies this
      ensures table == old(table)[path := Store(value)]
    {
      table := table[path := Stored(Encode(value), DetectType(value))];
    }

    method BulkUpsert(nested: Entries) returns (count: nat, ghost flat: map<string, Value>)
      modifies this
      ensures IsFlat(flat, FlatRows(nested, "")) && count == |flat|
      ensures table == old(table) + StoredTable(flat)
    {
      var rows := Flatten(nested, "");
      flat := rows;
      var left := rows.Keys;
      while left != {}
        invariant left <= rows.Keys
        invariant table.Keys == old(table.Keys) + (rows.Keys - left)
        invariant forall path :: path in table ==>
                    table[path] == if path in rows.Keys - left then Store(rows[path]) else old(table)[path]
        decreases left
      {
        var path :| path in left;
        Upsert(path, rows[path]);
        left := left - {path};
      }
      assert table == old(table) + StoredTable(flat);
      return |rows|, rows;
    }

    /** `None` is the exception of a row that does not decode. */
    method Get(path: string, default: Value) returns (v: Option<Value>)
      ensures v == if path in table then Load(table[path]) else Some(default)
    {
      if path !in table { return Some(default); }
      return Load(table[path]);
    }

    method GetAll() returns (all: Option<map<string, Value>>)
      ensures all.Some? <==> Loads(table)
      ensures all.Some? ==> all.value == Loaded(table)
    {
      var decoded: map<string, Value> := map[];
      var left := table.Keys;
      while left != {}
        invariant left <= table.Keys && decoded.Keys == table.Keys - left
        invariant forall path :: path in decoded ==> Load(table[path]) == Some(decoded[path])
        decreases left
      {
        var path :| path in left;
        var v := Load(table[path]);
        if v.None? { return None; }
        decoded, left := decoded[path := v.value], left - {path};
      }
      assert decoded.Keys == table.Keys;
      return Some(decoded);
    }

    method GetNested() returns (root: Option<Entries>)
      ensures ReadsAs(table, root)
    {
      var all := GetAll();
      if all.None? { return None; }
      var listed := ListRows(all.value);
      var nested := Unflatten(listed);
      return Some(nested);
    }
  }

  /** The rows of a dictionary, in some order. */
  method ListRows(all: map<string, Value>) returns (listed: seq<Row>)
    ensures Lists(listed, all)
  {
    listed := [];
    var left := all.Keys;
    while left != {}
      invariant left <= all.Keys
      invariant forall i, j :: 0 <= i < j < |listed| ==> listed[i].0 != listed[j].0
      invariant forall row :: row in listed <==> row.0 in all.Keys - left && all[row.0] == row.1
      decreases left
    {
      var path :| path in left;
      forall i | 0 <= i < |listed| ensures listed[i].0 != path { assert listed[i] in listed; }
      listed := listed + [(path, all[path])];
      left := left - {path};
    }
    assert all.Keys - left == all.Keys;
  }

  /** A new table, one bulk upsert, one read. */
  method WriteThenRead(nested: Entries) returns (root: Option<Entries>)
    ensures root == Some(nested) <==> Recoverable(nested) && NoNulls(nested) && Readable(nested)
    ensures Recoverable(nested) ==> (root.None? <==> !Readable(nested))
  {
    var db := new ConfigDB();
    var _, flat := db.BulkUpsert(nested);
    assert db.table == StoredTable(flat);
    root := db.GetNested();
    StoreRoundTrip(nested, flat, root);
  }

  lemma LargeIsFloat()
    ensures ParseInt("1e+16").None?
  {
    assert ParseNat("1e+").None?;
    assert "1e+16"[..4] == "1e+1" && "1e+1"[..3] == "1e+";
    assert ParseNat("1e+1").None?;
  }

  const LARGE: FloatText := (LargeIsFloat(); "1e+16")

  /** One float printed without a point, written to an empty table, and reading raises. */
  lemma FloatMakesUnreadable(key: string, flat: map<string, Value>, root: Option<Entries>)
    requires DotFree(key) && IsFlat(flat, FlatRows(map[key := Leaf(Float(LARGE))], ""))
    requires ReadsAs(StoredTable(flat), root)
    ensures root.None?
  {
    var d: Entries := map[key := Leaf(Float(LARGE))];
    LeafAt(d, key);
    assert Recoverable(d);
    StoreRoundTrip(d, flat, root);
  }
}
