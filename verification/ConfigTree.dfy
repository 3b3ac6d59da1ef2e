/**
 Nested configuration as rows of dotted paths: flattening, unflattening, and when they undo each other.
 */
module ConfigTree {
  import opened Decimal
  import opened PyText

  /**
   The text Python prints for a floating-point number: it has a point, an exponent or letters, so it is no
   integer's.
   */
  type FloatText = s: string | ParseInt(s).None? witness "0.0"

  /** What a configuration value can be besides a dictionary; `List` stands for any JSON list. */
  datatype Scalar = Bool(b: bool) | Int(n: int) | Float(repr: FloatText) | Text(s: string) | Null | List(items: string)

  /** Dictionaries compare as maps: the order of their keys is not part of their value. */
  datatype Value = Leaf(scalar: Scalar) | Dict(entries: Entries)

  type Entries = map<string, Value>

  /** The values that flattening keeps whole: everything but a non-empty dictionary. */
  predicate IsLeaf(v: Value) {
    v.Leaf? || v.entries == map[]
  }

  type KeyPath = seq<string>

  // ---- Flattening, as rows of key paths ----

  /** The leaves of a dictionary, each with the keys that lead to it. */
  ghost function Leaves(d: Entries): set<(KeyPath, Value)>
    decreases Dict(d), 0
  {
    set k, row | k in d && row in LeavesUnder(k, d[k]) :: row
  }

  ghost function LeavesUnder(k: string, v: Value): set<(KeyPath, Value)>
    decreases v, 1
  {
    if IsLeaf(v) then {([k], v)}
    else set row | row in Leaves(v.entries) :: ([k] + row.0, row.1)
  }

  predicate Comparable(p: KeyPath, q: KeyPath) {
    p <= q || q <= p
  }

  /** One round of the unflattening loop: walk down the keys, making dictionaries where there are none, and assign. */
  function Insert(d: Entries, p: KeyPath, v: Value): Entries
    decreases |p|
  {
    if p == [] then d
    else if |p| == 1 then d[p[0] := v]
    else
      var next := if p[0] in d && d[p[0]].Dict? then d[p[0]].entries else map[];
      d[p[0] := Dict(Insert(next, p[1..], v))]
  }

  function Build(rows: seq<(KeyPath, Value)>): Entries {
    if rows == [] then map[]
    else Insert(Build(rows[..|rows| - 1]), rows[|rows| - 1].0, rows[|rows| - 1].1)
  }

  // ---- Leaves ----

  lemma LeafHead(d: Entries, row: (KeyPath, Value))
    requires row in Leaves(d)
    ensures row.0 != [] && row.0[0] in d && row in LeavesUnder(row.0[0], d[row.0[0]]) && IsLeaf(row.1)
    decreases Dict(d)
  {
    var k :| k in d && row in LeavesUnder(k, d[k]);
    if !IsLeaf(d[k]) {
      var sub :| sub in Leaves(d[k].entries) && row == ([k] + sub.0, sub.1);
      LeafHead(d[k].entries, sub);
    }
  }

  lemma SubLeaf(d: Entries, k: string, p: KeyPath, v: Value)
    requires k in d && !IsLeaf(d[k])
    ensures ([k] + p, v) in Leaves(d) <==> (p, v) in Leaves(d[k].entries)
  {
    if ([k] + p, v) in Leaves(d) {
      LeafHead(d, ([k] + p, v));
      var sub :| sub in Leaves(d[k].entries) && ([k] + p, v) == ([k] + sub.0, sub.1);
      assert ([k] + sub.0)[1..] == sub.0 && ([k] + p)[1..] == p;
    }
    if (p, v) in Leaves(d[k].entries) {
      assert ([k] + (p, v).0, (p, v).1) in LeavesUnder(k, d[k]);
    }
  }

  lemma LeafAt(d: Entries, k: string)
    requires k in d && IsLeaf(d[k])
    ensures ([k], d[k]) in Leaves(d)
    ensures forall row :: row in Leaves(d) && row.0 != [] && row.0[0] == k ==> row == ([k], d[k])
  {
    assert ([k], d[k]) in LeavesUnder(k, d[k]);
    forall row | row in Leaves(d) && row.0 != [] && row.0[0] == k ensures row == ([k], d[k]) {
      LeafHead(d, row);
    }
  }

  /** Every key leads to some leaf. */
  lemma KeyHasLeaf(d: Entries, k: string) returns (row: (KeyPath, Value))
    requires k in d
    ensures row in Leaves(d) && row.0 != [] && row.0[0] == k
    decreases Dict(d)
  {
    if IsLeaf(d[k]) {
      LeafAt(d, k);
      row := ([k], d[k]);
    } else {
      var l :| l in d[k].entries;
      var sub := KeyHasLeaf(d[k].entries, l);
      SubLeaf(d, k, sub.0, sub.1);
      row := ([k] + sub.0, sub.1);
    }
  }

  /** Different leaves have paths of which none begins the other. */
  lemma LeavesIncomparable(d: Entries, r: (KeyPath, Value), s: (KeyPath, Value))
    requires r in Leaves(d) && s in Leaves(d) && Comparable(r.0, s.0)
    ensures r == s
    decreases Dict(d)
  {
    LeafHead(d, r);
    LeafHead(d, s);
    var k := r.0[0];
    assert s.0[0] == k;
    if !IsLeaf(d[k]) {
      var r', s' := (r.0[1..], r.1), (s.0[1..], s.1);
      assert r.0 == [k] + r'.0 && s.0 == [k] + s'.0;
      SubLeaf(d, k, r'.0, r'.1);
      SubLeaf(d, k, s'.0, s'.1);
      LeavesIncomparable(d[k].entries, r', s');
    }
  }

  /** A dictionary is determined by its leaves. */
  lemma LeavesInjective(d: Entries, e: Entries)
    requires Leaves(d) == Leaves(e)
    ensures d == e
    decreases Dict(d)
  {
    forall k ensures k in d <==> k in e {
      if k in d { var row := KeyHasLeaf(d, k); LeafHead(e, row); }
      if k in e { var row := KeyHasLeaf(e, k); LeafHead(d, row); }
    }
    forall k | k in d ensures d[k] == e[k] {
      if IsLeaf(d[k]) {
        LeafAt(d, k);
        SameLeaf(d, e, k);
      } else if IsLeaf(e[k]) {
        LeafAt(e, k);
        SameLeaf(e, d, k);
      } else {
        forall row ensures row in Leaves(d[k].entries) <==> row in Leaves(e[k].entries) {
          SubLeaf(d, k, row.0, row.1);
          SubLeaf(e, k, row.0, row.1);
        }
        LeavesInjective(d[k].entries, e[k].entries);
      }
    }
  }

  lemma SameLeaf(d: Entries, e: Entries, k: string)
    requires Leaves(d) == Leaves(e) && k in d && k in e && IsLeaf(d[k])
    ensures d[k] == e[k]
  {
    LeafAt(d, k);
    LeafHead(e, ([k], d[k]));
    if !IsLeaf(e[k]) {
      assert [k] + [] == [k];
      SubLeaf(e, k, [], d[k]);
      LeafHead(e[k].entries, ([], d[k]));
    }
  }

  // ---- Building ----

  ghost predicate Fits(rows: set<(KeyPath, Value)>, p: KeyPath) {
    forall row :: row in rows ==> !Comparable(row.0, p)
  }

  /** Inserting a leaf at a path that fits adds that leaf and keeps all others. */
  lemma InsertLeaf(d: Entries, p: KeyPath, v: Value)
    requires p != [] && IsLeaf(v) && Fits(Leaves(d), p)
    ensures Leaves(Insert(d, p, v)) == Leaves(d) + {(p, v)}
    decreases |p|
  {
    var k, d' := p[0], Insert(d, p, v);
    if |p| == 1 {
      assert p == [k];
      InsertTopLeaf(d, k, v);
    } else {
      var next := if k in d && d[k].Dict? then d[k].entries else map[];
      if k in d && IsLeaf(d[k]) { LeafAt(d, k); }
      forall row | row in Leaves(next) ensures !Comparable(row.0, p[1..]) {
        SubLeaf(d, k, row.0, row.1);
        assert p == [k] + p[1..];
      }
      InsertLeaf(next, p[1..], v);
      assert d'[k].entries == Insert(next, p[1..], v) != map[];
      forall row ensures row in Leaves(d') <==> row in Leaves(d) + {(p, v)} {
        InsertElsewhere(d, d', k, row);
        if row.0 != [] && row.0[0] == k {
          assert row.0 == [k] + row.0[1..] && p == [k] + p[1..];
          SubLeaf(d', k, row.0[1..], row.1);
          if k in d { SubLeaf(d, k, row.0[1..], row.1); } else if row in Leaves(d) { LeafHead(d, row); }
        }
      }
    }
  }

  lemma InsertTopLeaf(d: Entries, k: string, v: Value)
    requires IsLeaf(v) && Fits(Leaves(d), [k])
    ensures Leaves(d[k := v]) == Leaves(d) + {([k], v)}
  {
    var d' := d[k := v];
    if k in d { var row := KeyHasLeaf(d, k); }
    LeafAt(d', k);
    forall row ensures row in Leaves(d') <==> row in Leaves(d) + {([k], v)} {
      InsertElsewhere(d, d', k, row);
      if row in Leaves(d') { LeafHead(d', row); }
      if row in Leaves(d) { LeafHead(d, row); }
    }
  }

  /** Changing one key leaves the leaves under all others alone. */
  lemma InsertElsewhere(d: Entries, d': Entries, k: string, row: (KeyPath, Value))
    requires k in d' && d' == d[k := d'[k]]
    ensures row.0 == [] || row.0[0] != k ==> (row in Leaves(d') <==> row in Leaves(d))
  {
    if row in Leaves(d') { LeafHead(d', row); }
    if row in Leaves(d) { LeafHead(d, row); }
    if row.0 != [] && row.0[0] != k && row.0[0] in d {
      assert LeavesUnder(row.0[0], d[row.0[0]]) == LeavesUnder(row.0[0], d'[row.0[0]]);
    }
  }

  ghost predicate PrefixFree(rows: seq<(KeyPath, Value)>) {
    && (forall i :: 0 <= i < |rows| ==> rows[i].0 != [] && IsLeaf(rows[i].1))
    && (forall i, j :: 0 <= i < |rows| && 0 <= j < |rows| && i != j ==> !Comparable(rows[i].0, rows[j].0))
  }

  ghost function RowSet(rows: seq<(KeyPath, Value)>): set<(KeyPath, Value)> {
    set row | row in rows
  }

  /** The dictionary built from prefix-free rows has exactly these rows as its leaves. */
  lemma {:induction false} BuildLeaves(rows: seq<(KeyPath, Value)>)
    requires PrefixFree(rows)
    ensures Leaves(Build(rows)) == RowSet(rows)
    decreases |rows|
  {
    if rows != [] {
      var init, last := rows[..|rows| - 1], rows[|rows| - 1];
      BuildLeaves(init);
      assert rows == init + [last];
      forall row | row in RowSet(init) ensures !Comparable(row.0, last.0) {
        var i :| 0 <= i < |init| && init[i] == row;
        assert rows[i] == row;
      }
      InsertLeaf(Build(init), last.0, last.1);
    }
  }

  /** The order of prefix-free rows does not matter. */
  lemma BuildOrderIrrelevant(rows: seq<(KeyPath, Value)>, rows': seq<(KeyPath, Value)>)
    requires PrefixFree(rows) && PrefixFree(rows') && RowSet(rows) == RowSet(rows')
    ensures Build(rows) == Build(rows')
  {
    BuildLeaves(rows);
    BuildLeaves(rows');
    LeavesInjective(Build(rows), Build(rows'));
  }

  /** Building a dictionary from its leaves, in any order, gives it back. */
  lemma BuildOfLeaves(d: Entries, rows: seq<(KeyPath, Value)>)
    requires RowSet(rows) == Leaves(d) && forall i, j :: 0 <= i < j < |rows| ==> rows[i].0 != rows[j].0
    ensures PrefixFree(rows) && Build(rows) == d
  {
    forall i | 0 <= i < |rows| ensures rows[i].0 != [] && IsLeaf(rows[i].1) {
      assert rows[i] in RowSet(rows);
      LeafHead(d, rows[i]);
    }
    forall i, j | 0 <= i < |rows| && 0 <= j < |rows| && i != j ensures !Comparable(rows[i].0, rows[j].0) {
      assert rows[i] in RowSet(rows) && rows[j] in RowSet(rows);
      if Comparable(rows[i].0, rows[j].0) { LeavesIncomparable(d, rows[i], rows[j]); }
    }
    BuildLeaves(rows);
    LeavesInjective(Build(rows), d);
  }

  // ---- Values at paths ----

  function ValueAt(d: Entries, p: KeyPath): Option<Value>
    decreases |p|
  {
    if p == [] || p[0] !in d then None
    else if |p| == 1 then Some(d[p[0]])
    else if d[p[0]].Dict? then ValueAt(d[p[0]].entries, p[1..])
    else None
  }

  lemma {:induction false} InsertedValue(d: Entries, p: KeyPath, v: Value)
    requires p != []
    ensures ValueAt(Insert(d, p, v), p) == Some(v)
    decreases |p|
  {
    if |p| > 1 {
      InsertedValue(if p[0] in d && d[p[0]].Dict? then d[p[0]].entries else map[], p[1..], v);
    }
  }

  /** The leaf at a path is the value there. */
  lemma {:induction false} LeafIsValue(d: Entries, p: KeyPath, v: Value)
    requires p != [] && IsLeaf(v)
    ensures (p, v) in Leaves(d) <==> ValueAt(d, p) == Some(v)
    decreases |p|
  {
    var k := p[0];
    if (p, v) in Leaves(d) { LeafHead(d, (p, v)); }
    if k in d && IsLeaf(d[k]) {
      LeafAt(d, k);
      assert |p| == 1 ==> p == [k];
    } else if k in d {
      assert p == [k] + p[1..];
      SubLeaf(d, k, p[1..], v);
      if |p| > 1 {
        LeafIsValue(d[k].entries, p[1..], v);
      } else if ([], v) in Leaves(d[k].entries) {
        LeafHead(d[k].entries, ([], v));
      }
    }
  }

  /** Inserting what stands in `d` at a path into a part of `d` gives a part of `d`, and loses nothing. */
  lemma {:induction false} InsertKnown(e: Entries, d: Entries, p: KeyPath, v: Value)
    requires p != [] && Leaves(e) <= Leaves(d) && ValueAt(d, p) == Some(v)
    ensures Leaves(e) <= Leaves(Insert(e, p, v)) <= Leaves(d)
    decreases |p|
  {
    var k, e' := p[0], Insert(e, p, v);
    if |p| > 1 {
      var next := if k in e && e[k].Dict? then e[k].entries else map[];
      PartUnder(e, d, k);
      InsertKnown(next, d[k].entries, p[1..], v);
      InsertedValue(next, p[1..], v);
      assert !IsLeaf(e'[k]) && e'[k].entries == Insert(next, p[1..], v);
    }
    forall row | row in Leaves(e) || row in Leaves(e')
      ensures (row in Leaves(e) ==> row in Leaves(e')) && (row in Leaves(e') ==> row in Leaves(d))
    {
      KnownRow(e, d, p, v, row);
    }
  }

  /** Under a key with a non-empty dictionary in `d`, a part of `d` has nothing or a part of that dictionary. */
  lemma PartUnder(e: Entries, d: Entries, k: string)
    requires Leaves(e) <= Leaves(d) && k in d && !IsLeaf(d[k])
    ensures k in e ==> !IsLeaf(e[k]) && Leaves(e[k].entries) <= Leaves(d[k].entries)
  {
    if k in e && IsLeaf(e[k]) {
      LeafAt(e, k);
      LeafHead(d, ([k], e[k]));
      SubLeaf(d, k, [], e[k]);
      LeafHead(d[k].entries, ([], e[k]));
    } else if k in e {
      forall row | row in Leaves(e[k].entries) ensures row in Leaves(d[k].entries) {
        SubLeaf(e, k, row.0, row.1);
        SubLeaf(d, k, row.0, row.1);
      }
    }
  }

  lemma KnownRow(e: Entries, d: Entries, p: KeyPath, v: Value, row: (KeyPath, Value))
    requires p != [] && Leaves(e) <= Leaves(d) && ValueAt(d, p) == Some(v)
    requires |p| > 1 ==>
               var next := if p[0] in e && e[p[0]].Dict? then e[p[0]].entries else map[];
               var sub := Insert(next, p[1..], v);
               sub != map[] && Leaves(next) <= Leaves(sub) <= Leaves(d[p[0]].entries)
    requires row in Leaves(e) || row in Leaves(Insert(e, p, v))
    ensures row in Leaves(e) ==> row in Leaves(Insert(e, p, v))
    ensures row in Leaves(Insert(e, p, v)) ==> row in Leaves(d)
  {
    var k, e' := p[0], Insert(e, p, v);
    if row in Leaves(e) { LeafHead(e, row); } else { LeafHead(e', row); }
    InsertElsewhere(e, e', k, row);
    if row.0[0] == k {
      if row in Leaves(e) { LeafHead(d, row); }
      if row in Leaves(e') { LeafHead(e', row); }
      if |p| == 1 {
        assert e'[k] == d[k];
        assert LeavesUnder(k, e'[k]) == LeavesUnder(k, d[k]);
      } else {
        var rest := row.0[1..];
        assert row.0 == [k] + rest;
        PartUnder(e, d, k);
        SubLeaf(e', k, rest, row.1);
        SubLeaf(d, k, rest, row.1);
        if k in e { SubLeaf(e, k, rest, row.1); }
      }
    }
  }

  /** A dictionary built from values that stand in `d`, in any order, is a part of `d` that has all their leaves. */
  lemma {:induction false} BuildKnown(rows: seq<(KeyPath, Value)>, d: Entries)
    requires forall i :: 0 <= i < |rows| ==> rows[i].0 != [] && ValueAt(d, rows[i].0) == Some(rows[i].1)
    ensures Leaves(Build(rows)) <= Leaves(d)
    ensures forall i :: 0 <= i < |rows| && IsLeaf(rows[i].1) ==> rows[i] in Leaves(Build(rows))
    decreases |rows|
  {
    if rows != [] {
      var n := |rows| - 1;
      var init, last := rows[..n], rows[n];
      BuildKnown(init, d);
      InsertKnown(Build(init), d, last.0, last.1);
      InsertedValue(Build(init), last.0, last.1);
      if IsLeaf(last.1) { LeafIsValue(Build(rows), last.0, last.1); }
      forall i | 0 <= i < n && IsLeaf(rows[i].1) ensures rows[i] in Leaves(Build(rows)) {
        assert init[i] == rows[i];
      }
    }
  }
}
