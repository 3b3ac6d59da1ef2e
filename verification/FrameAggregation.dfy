/**
 The category of a video from the scores of its frames: aggregate per label, then the greatest score wins,
 ties going to the earliest label of the mapping. Scores are real numbers here: rounding is not modelled.
 */
module FrameAggregation {
  import opened Permutations

  datatype Output = Output(assetId: string, scores: map<string, real>)

  /** One entry of the label mapping, in its order. */
  datatype Entry = Entry(raw: string, category: string)

  datatype Verdict = Category(category: string, raw: string, scores: map<string, real>)
                   | NoFrames | UnsupportedStrategy | WrongAsset | NothingMapped

  predicate DistinctLabels(mapping: seq<Entry>) {
    forall i, j :: 0 <= i < j < |mapping| ==> mapping[i].raw != mapping[j].raw
  }

  // ---- Scores of a label ----

  function Scores(outputs: seq<Output>, raw: string): seq<real> {
    if outputs == [] then []
    else
      var last := outputs[|outputs| - 1];
      Scores(outputs[..|outputs| - 1], raw) + (if raw in last.scores then [last.scores[raw]] else [])
  }

  function Sum(xs: seq<real>): real {
    if xs == [] then 0.0 else Sum(xs[..|xs| - 1]) + xs[|xs| - 1]
  }

  function Max(xs: seq<real>): real
    requires xs != []
  {
    if |xs| == 1 then xs[0]
    else
      var m, last := Max(xs[..|xs| - 1]), xs[|xs| - 1];
      if last > m then last else m
  }

  function Aggregate(xs: seq<real>, mean: bool): real
    requires xs != []
  {
    if mean then Sum(xs) / |xs| as real else Max(xs)
  }

  predicate Mapped(mapping: seq<Entry>, raw: string) {
    exists i :: 0 <= i < |mapping| && mapping[i].raw == raw
  }

  /** The aggregated score of every mapped label that some frame scored. */
  function Aggregated(mapping: seq<Entry>, outputs: seq<Output>, mean: bool): map<string, real> {
    map e | e in mapping && Scores(outputs, e.raw) != [] :: e.raw := Aggregate(Scores(outputs, e.raw), mean)
  }

  /** The entry at `i` has the greatest aggregated score, and no earlier entry has the same. */
  ghost predicate Wins(mapping: seq<Entry>, scores: map<string, real>, i: nat) {
    && i < |mapping| && mapping[i].raw in scores
    && forall j :: 0 <= j < |mapping| && mapping[j].raw in scores ==>
         && scores[mapping[j].raw] <= scores[mapping[i].raw]
         && (j < i ==> scores[mapping[j].raw] < scores[mapping[i].raw])
  }

  /** What aggregation answers: each error exactly in its case, else the winner among the aggregated scores. */
  ghost predicate IsVerdict(v: Verdict, mapping: seq<Entry>, outputs: seq<Output>, assetId: string, strategy: string) {
    var scores := Aggregated(mapping, outputs, strategy == "mean");
    && (v == NoFrames <==> outputs == [])
    && (v == UnsupportedStrategy <==> outputs != [] && strategy !in {"max", "mean"})
    && (v == WrongAsset <==>
          outputs != [] && strategy in {"max", "mean"} && exists o :: o in outputs && o.assetId != assetId)
    && (v == NothingMapped ==> scores == map[])
    && (v.Category? ==>
          v.scores == scores
          && exists i: nat :: Wins(mapping, scores, i) && v.raw == mapping[i].raw && v.category == mapping[i].category)
  }

  // ---- The code ----

  method AggregateOutputs(mapping: seq<Entry>, outputs: seq<Output>, assetId: string, asked: string, profile: string)
    returns (v: Verdict, strategy: string)
    requires DistinctLabels(mapping)
    ensures asked != "" ==> strategy == asked
    ensures asked == "" ==> strategy == if profile == "" then "max" else profile
    ensures IsVerdict(v, mapping, outputs, assetId, strategy)
  {
    strategy := if asked != "" then asked else if profile != "" then profile else "max";
    if outputs == [] { return NoFrames, strategy; }
    if strategy !in {"max", "mean"} { return UnsupportedStrategy, strategy; }
    var byLabel: map<string, seq<real>> := map[];
    for n := 0 to |outputs|
      invariant forall o :: o in outputs[..n] ==> o.assetId == assetId
      invariant forall raw :: raw in byLabel <==> Mapped(mapping, raw) && Scores(outputs[..n], raw) != []
      invariant forall raw :: raw in byLabel ==> byLabel[raw] == Scores(outputs[..n], raw)
    {
      if outputs[n].assetId != assetId { return WrongAsset, strategy; }
      assert outputs[..n + 1][..n] == outputs[..n];
      byLabel := AddScores(mapping, byLabel, outputs[n].scores);
    }
    assert outputs[..|outputs|] == outputs;
    if byLabel == map[] {
      assert Aggregated(mapping, outputs, strategy == "mean") == map[] by {
        forall e | e in mapping ensures Scores(outputs, e.raw) == [] {
          assert Mapped(mapping, e.raw);
          assert e.raw !in byLabel;
        }
      }
      return NothingMapped, strategy;
    }
    var scores := map raw | raw in byLabel :: Aggregate(byLabel[raw], strategy == "mean");
    AggregatedIs(mapping, outputs, strategy == "mean", scores);
    var i := Best(mapping, scores);
    return Category(mapping[i].category, mapping[i].raw, scores), strategy;
  }

  lemma AggregatedIs(mapping: seq<Entry>, outputs: seq<Output>, mean: bool, scores: map<string, real>)
    requires forall raw :: raw in scores <==> Mapped(mapping, raw) && Scores(outputs, raw) != []
    requires forall raw :: raw in scores ==> scores[raw] == Aggregate(Scores(outputs, raw), mean)
    ensures scores == Aggregated(mapping, outputs, mean)
  {
    var a := Aggregated(mapping, outputs, mean);
    forall raw ensures raw in a <==> raw in scores {
      if raw in scores {
        var i :| 0 <= i < |mapping| && mapping[i].raw == raw;
        assert mapping[i] in mapping;
      }
    }
  }

  /** One frame: append the scores of its mapped labels. */
  method AddScores(mapping: seq<Entry>, byLabel: map<string, seq<real>>, scores: map<string, real>)
      returns (r: map<string, seq<real>>)
    requires forall raw :: raw in byLabel ==> Mapped(mapping, raw)
    ensures forall raw :: raw in r <==> raw in byLabel || (Mapped(mapping, raw) && raw in scores)
    ensures forall raw :: raw in r ==>
              r[raw] == (if raw in byLabel then byLabel[raw] else [])
                        + (if Mapped(mapping, raw) && raw in scores then [scores[raw]] else [])
  {
    r := byLabel;
    var left := scores.Keys;
    while left != {}
      invariant left <= scores.Keys
      invariant forall raw :: raw in r <==> raw in byLabel || (Mapped(mapping, raw) && raw in scores.Keys - left)
      invariant forall raw :: raw in r ==>
                  r[raw] == (if raw in byLabel then byLabel[raw] else [])
                            + (if Mapped(mapping, raw) && raw in scores.Keys - left then [scores[raw]] else [])
      decreases left
    {
      var raw :| raw in left;
      left := left - {raw};
      if Mapped(mapping, raw) {
        r := r[raw := (if raw in r then r[raw] else []) + [scores[raw]]];
      }
    }
  }

  function IndexOf(mapping: seq<Entry>, raw: string): (i: nat)
    requires Mapped(mapping, raw)
    ensures i < |mapping| && mapping[i].raw == raw
  {
    if mapping[0].raw == raw then 0 else 1 + IndexOf(mapping[1..], raw)
  }

  /**
   The label with the greatest score, and the earliest in the mapping among equals, whatever the order
   they come in.
   */
  method Best(mapping: seq<Entry>, scores: map<string, real>) returns (best: nat)
    requires DistinctLabels(mapping) && scores != map[]
    requires forall raw :: raw in scores ==> Mapped(mapping, raw)
    ensures Wins(mapping, scores, best)
  {
    var raw :| raw in scores;
    best := IndexOf(mapping, raw);
    var left := scores.Keys - {raw};
    while left != {}
      invariant left <= scores.Keys && best < |mapping| && mapping[best].raw in scores.Keys - left
      invariant forall j :: 0 <= j < |mapping| && mapping[j].raw in scores.Keys - left ==>
                  && scores[mapping[j].raw] <= scores[mapping[best].raw]
                  && (j < best ==> scores[mapping[j].raw] < scores[mapping[best].raw])
      decreases left
    {
      raw :| raw in left;
      left := left - {raw};
      var i := IndexOf(mapping, raw);
      if scores[raw] > scores[mapping[best].raw] || (scores[raw] == scores[mapping[best].raw] && i < best) {
        best := i;
      }
    }
  }

  // ---- Laws ----

  lemma WinnerUnique(mapping: seq<Entry>, scores: map<string, real>, i: nat, j: nat)
    requires Wins(mapping, scores, i) && Wins(mapping, scores, j)
    ensures i == j
  {
  }

  lemma {:induction false} ScoresConcat(a: seq<Output>, b: seq<Output>, raw: string)
    ensures Scores(a + b, raw) == Scores(a, raw) + Scores(b, raw)
  {
    if b == [] {
      assert a + b == a;
    } else {
      var init, last := b[..|b| - 1], b[|b| - 1];
      ScoresConcat(a, init, raw);
      assert (a + b)[..|a + b| - 1] == a + init && (a + b)[|a + b| - 1] == last;
    }
  }

  lemma {:induction false} SumConcat(a: seq<real>, b: seq<real>)
    ensures Sum(a + b) == Sum(a) + Sum(b)
  {
    if b == [] {
      assert a + b == a;
    } else {
      SumConcat(a, b[..|b| - 1]);
      assert (a + b)[..|a + b| - 1] == a + b[..|b| - 1];
    }
  }

  lemma {:induction false} MaxIsGreatest(xs: seq<real>)
    requires xs != []
    ensures Max(xs) in xs && forall x :: x in xs ==> x <= Max(xs)
  {
    if |xs| > 1 {
      var init, last := xs[..|xs| - 1], xs[|xs| - 1];
      MaxIsGreatest(init);
      assert xs == init + [last];
    }
  }

  /** Scores of permuted frames are the same scores in another order. */
  lemma {:induction false} ScoresPermute(a: seq<Output>, b: seq<Output>, raw: string)
    requires multiset(a) == multiset(b)
    ensures multiset(Scores(a, raw)) == multiset(Scores(b, raw))
    decreases |a|
  {
    if a == [] {
      assert |b| == |multiset(b)| == 0;
    } else {
      var init, last := a[..|a| - 1], a[|a| - 1];
      assert a == init + [last];
      var left, right := TakeOut(last, init, b);
      ScoresPermute(init, left + right, raw);
      ScoresConcat(left, right, raw);
      ScoresConcat(left + [last], right, raw);
      ScoresConcat(left, [last], raw);
      ScoresConcat(init, [last], raw);
      PutIn(Scores(init, raw), Scores([last], raw), Scores(left, raw), Scores(right, raw));
    }
  }

  lemma {:induction false} SumPermutes(a: seq<real>, b: seq<real>)
    requires multiset(a) == multiset(b)
    ensures Sum(a) == Sum(b) && |a| == |b|
    decreases |a|
  {
    assert |a| == |multiset(a)| == |multiset(b)| == |b|;
    if a != [] {
      var init, last := a[..|a| - 1], a[|a| - 1];
      assert a == init + [last];
      var left, right := TakeOut(last, init, b);
      SumPermutes(init, left + right);
      SumConcat(left, right);
      SumConcat(left + [last], right);
      SumConcat(left, [last]);
    }
  }

  lemma MaxPermutes(a: seq<real>, b: seq<real>)
    requires multiset(a) == multiset(b) && a != [] && b != []
    ensures Max(a) == Max(b)
  {
    MaxIsGreatest(a);
    MaxIsGreatest(b);
    assert Max(a) in multiset(b) && Max(b) in multiset(a);
    assert Max(a) in b && Max(b) in a;
  }

  /** Main result: neither category nor scores depend on the order of the frames. */
  lemma FrameOrderIrrelevant(mapping: seq<Entry>, a: seq<Output>, b: seq<Output>, mean: bool)
    requires multiset(a) == multiset(b)
    ensures Aggregated(mapping, a, mean) == Aggregated(mapping, b, mean)
  {
    forall e | e in mapping
      ensures Scores(a, e.raw) == [] <==> Scores(b, e.raw) == []
      ensures Scores(a, e.raw) != [] ==> Aggregate(Scores(a, e.raw), mean) == Aggregate(Scores(b, e.raw), mean)
    {
      ScoresPermute(a, b, e.raw);
      SumPermutes(Scores(a, e.raw), Scores(b, e.raw));
      if Scores(a, e.raw) != [] { MaxPermutes(Scores(a, e.raw), Scores(b, e.raw)); }
    }
  }

  /** Main result: two verdicts on the same frames, in whatever orders, are the same. */
  lemma VerdictOrderIrrelevant(mapping: seq<Entry>, a: seq<Output>, b: seq<Output>, assetId: string, strategy: string,
                               v: Verdict, w: Verdict)
    requires multiset(a) == multiset(b)
    ensures IsVerdict(v, mapping, a, assetId, strategy) && IsVerdict(w, mapping, b, assetId, strategy) ==> v == w
  {
    if !(IsVerdict(v, mapping, a, assetId, strategy) && IsVerdict(w, mapping, b, assetId, strategy)) { return; }
    FrameOrderIrrelevant(mapping, a, b, strategy == "mean");
    assert |a| == |multiset(a)| == |multiset(b)| == |b|;
    forall o ensures o in a <==> o in b { assert o in multiset(a) <==> o in multiset(b); }
    if v.Category? && w.Category? {
      var scores := Aggregated(mapping, a, strategy == "mean");
      var i: nat :| Wins(mapping, scores, i) && v.raw == mapping[i].raw && v.category == mapping[i].category;
      var j: nat :| Wins(mapping, scores, j) && w.raw == mapping[j].raw && w.category == mapping[j].category;
      WinnerUnique(mapping, scores, i, j);
    }
  }

  /** Main result: a label is scored if it is mapped and some frame scores it; ... */
  lemma ScoredIff(mapping: seq<Entry>, outputs: seq<Output>, mean: bool, raw: string)
    ensures raw in Aggregated(mapping, outputs, mean) <==>
              (exists e :: e in mapping && e.raw == raw) && exists o :: o in outputs && raw in o.scores
  {
    ScoresAre(outputs, raw);
  }

  /** The scores of a label are those the frames give it. */
  lemma {:induction false} ScoresAre(outputs: seq<Output>, raw: string)
    ensures forall x :: x in Scores(outputs, raw) <==> exists o :: o in outputs && raw in o.scores && o.scores[raw] == x
    ensures Scores(outputs, raw) == [] <==> forall o :: o in outputs ==> raw !in o.scores
  {
    if outputs != [] {
      var init, last := outputs[..|outputs| - 1], outputs[|outputs| - 1];
      assert outputs == init + [last];
      ScoresAre(init, raw);
    }
  }

  /** ... with `max` it gets the greatest score of the frames, ... */
  lemma MaxScoreIs(mapping: seq<Entry>, outputs: seq<Output>, raw: string, score: real)
    requires raw in Aggregated(mapping, outputs, false)
    ensures Aggregated(mapping, outputs, false)[raw] == score <==>
              (exists o :: o in outputs && raw in o.scores && o.scores[raw] == score)
              && forall o :: o in outputs && raw in o.scores ==> o.scores[raw] <= score
  {
    var scores := Scores(outputs, raw);
    ScoresAre(outputs, raw);
    MaxIsGreatest(scores);
    assert Aggregated(mapping, outputs, false)[raw] == Max(scores);
    if score in scores && forall x :: x in scores ==> x <= score { assert Max(scores) <= score <= Max(scores); }
    forall o | o in outputs && raw in o.scores ensures o.scores[raw] <= Max(scores) {
      var x := o.scores[raw];
      assert exists q :: q in outputs && raw in q.scores && q.scores[raw] == x;
      assert x in Scores(outputs, raw);
    }
  }

  /** ... and with `mean` the score that makes up their sum when every scoring frame has it. */
  lemma {:induction false} MeanScoreIs(mapping: seq<Entry>, outputs: seq<Output>, raw: string)
    requires raw in Aggregated(mapping, outputs, true)
    ensures Aggregated(mapping, outputs, true)[raw] * Total(outputs, _ => 1.0, raw) ==
              Total(outputs, (x: real) => x, raw)
  {
    var xs := Scores(outputs, raw);
    TotalsAre(outputs, raw);
    assert Aggregated(mapping, outputs, true)[raw] == Sum(xs) / |xs| as real;
    Quotient(Sum(xs), |xs| as real);
  }

  lemma Quotient(x: real, y: real)
    requires y > 0.0
    ensures x / y * y == x
  {
  }

  /** `f` of the score of the label, summed over the frames that have one. */
  ghost function Total(outputs: seq<Output>, f: real -> real, raw: string): real {
    if outputs == [] then 0.0
    else (if raw in outputs[0].scores then f(outputs[0].scores[raw]) else 0.0) + Total(outputs[1..], f, raw)
  }

  lemma {:induction false} TotalsAre(outputs: seq<Output>, raw: string)
    ensures Total(outputs, _ => 1.0, raw) == |Scores(outputs, raw)| as real
    ensures Total(outputs, (x: real) => x, raw) == Sum(Scores(outputs, raw))
  {
    if outputs != [] {
      var first, rest := outputs[0], outputs[1..];
      TotalsAre(rest, raw);
      assert outputs == [first] + rest;
      ScoresConcat([first], rest, raw);
      SumConcat(Scores([first], raw), Scores(rest, raw));
    }
  }

  /** More frames never lower a `max` score. */
  lemma MaxNeverFalls(a: seq<Output>, more: seq<Output>, raw: string)
    requires Scores(a, raw) != []
    ensures Scores(a + more, raw) != [] && Aggregate(Scores(a + more, raw), false) >= Aggregate(Scores(a, raw), false)
  {
    ScoresConcat(a, more, raw);
    MaxIsGreatest(Scores(a, raw));
    MaxIsGreatest(Scores(a + more, raw));
    assert Max(Scores(a, raw)) in Scores(a + more, raw);
  }

  lemma NextMultiple(x: real, n: nat)
    ensures x * (n + 1) as real == x * n as real + x
  {
    assert (n + 1) as real == n as real + 1.0;
  }

  lemma {:induction false} SumBetween(xs: seq<real>, lo: real, hi: real)
    requires forall i :: 0 <= i < |xs| ==> lo <= xs[i] <= hi
    ensures lo * |xs| as real <= Sum(xs) <= hi * |xs| as real
  {
    if xs != [] {
      var n := |xs| - 1;
      SumBetween(xs[..n], lo, hi);
      var init, last := Sum(xs[..n]), xs[n];
      assert Sum(xs) == init + last;
      NextMultiple(lo, n);
      NextMultiple(hi, n);
      assert lo * n as real <= init <= hi * n as real;
      assert lo * (n + 1) as real <= init + last;
      assert init + last <= hi * (n + 1) as real;
    }
  }

  lemma ProductsOrdered(a: real, b: real, n: real)
    requires a < b && n > 0.0
    ensures a * n < b * n
  {
  }

  /** A `mean` score lies between the least and the greatest score of the frames. */
  lemma MeanBetween(xs: seq<real>, lo: real, hi: real)
    requires xs != [] && forall i :: 0 <= i < |xs| ==> lo <= xs[i] <= hi
    ensures lo <= Aggregate(xs, true) <= hi
  {
    SumBetween(xs, lo, hi);
  }
}
