/**
 * The post-processing in utilities/opentargets_tool.py: keeping the disease
 * hits of a search and sorting them by score, and summarising the targets
 * associated with a disease. The GraphQL responses are inputs.
 */
module OpenTargets {
  import opened Common

  // ---------------------------------------------------------------------------
  // search_disease_by_name

  /** One search hit. The score is a totally ordered key; the service sends a float. */
  datatype Hit = Hit(id: string, name: string, entity: string, score: int)

  /** `[r for r in hits if r["entity"] == "disease"]`. */
  function DiseaseHits(hits: seq<Hit>): seq<Hit> {
    if hits == [] then []
    else DiseaseHits(hits[..|hits| - 1]) + (if hits[|hits| - 1].entity == "disease" then [hits[|hits| - 1]] else [])
  }

  lemma DiseaseHitsSnoc(hits: seq<Hit>, h: Hit)
    ensures DiseaseHits(hits + [h]) == DiseaseHits(hits) + (if h.entity == "disease" then [h] else [])
  {
    assert (hits + [h])[..|hits|] == hits;
  }

  /** The filter keeps exactly the disease hits, each as often as it occurs. */
  lemma {:induction false} DiseaseHitsExact(hits: seq<Hit>)
    ensures forall h :: h in DiseaseHits(hits) <==> h in hits && h.entity == "disease"
    ensures forall h: Hit :: h.entity == "disease" ==> multiset(DiseaseHits(hits))[h] == multiset(hits)[h]
    ensures forall h: Hit :: h.entity != "disease" ==> multiset(DiseaseHits(hits))[h] == 0
    decreases |hits|
  {
    if hits != [] {
      var init := hits[..|hits| - 1];
      var last := hits[|hits| - 1];
      DiseaseHitsExact(init);
      assert hits == init + [last];
      DiseaseHitsSnoc(init, last);
      var kept := if last.entity == "disease" then [last] else [];
      assert multiset(DiseaseHits(hits)) == multiset(DiseaseHits(init)) + multiset(kept);
      assert multiset(hits) == multiset(init) + multiset{last};
    }
  }

  /** Filtering distributes over concatenation: the kept hits stay in input order. */
  lemma {:induction false} DiseaseHitsAppend(a: seq<Hit>, b: seq<Hit>)
    ensures DiseaseHits(a + b) == DiseaseHits(a) + DiseaseHits(b)
    decreases |b|
  {
    if b != [] {
      DiseaseHitsAppend(a, b[..|b| - 1]);
      assert (a + b)[..|a + b| - 1] == a + b[..|b| - 1];
    } else {
      assert a + b == a;
    }
  }

  /** Non-increasing by score. */
  predicate SortedDesc(xs: seq<Hit>) {
    forall i, j :: 0 <= i < j < |xs| ==> xs[i].score >= xs[j].score
  }

  /** Insert `x` after every element whose score is at least its own. */
  function InsertDesc(sorted: seq<Hit>, x: Hit): (r: seq<Hit>)
    ensures |r| == |sorted| + 1
  {
    if sorted != [] && sorted[|sorted| - 1].score < x.score then
      InsertDesc(sorted[..|sorted| - 1], x) + [sorted[|sorted| - 1]]
    else sorted + [x]
  }

  /** Inserting adds exactly `x`. */
  lemma {:induction false} InsertDescPermutation(sorted: seq<Hit>, x: Hit)
    ensures multiset(InsertDesc(sorted, x)) == multiset(sorted) + multiset{x}
    decreases |sorted|
  {
    if sorted != [] && sorted[|sorted| - 1].score < x.score {
      var init := sorted[..|sorted| - 1];
      InsertDescPermutation(init, x);
      assert sorted == init + [sorted[|sorted| - 1]];
    }
  }

  /** The stable sort by descending score: each element in turn inserted after its equals. */
  function SortDesc(xs: seq<Hit>): (r: seq<Hit>)
    ensures |r| == |xs|
  {
    if xs == [] then [] else InsertDesc(SortDesc(xs[..|xs| - 1]), xs[|xs| - 1])
  }

  /** Inserting into hits that all score at least `b` an element scoring at least `b` keeps that bound. */
  lemma {:induction false} InsertDescLowerBound(sorted: seq<Hit>, x: Hit, b: int)
    requires forall k :: 0 <= k < |sorted| ==> sorted[k].score >= b
    requires x.score >= b
    ensures forall k :: 0 <= k < |sorted| + 1 ==> InsertDesc(sorted, x)[k].score >= b
    decreases |sorted|
  {
    if sorted != [] && sorted[|sorted| - 1].score < x.score {
      InsertDescLowerBound(sorted[..|sorted| - 1], x, b);
    }
  }

  /** Inserting into a non-increasing sequence keeps it non-increasing. */
  lemma {:induction false} InsertDescSorted(sorted: seq<Hit>, x: Hit)
    requires SortedDesc(sorted)
    ensures SortedDesc(InsertDesc(sorted, x))
    decreases |sorted|
  {
    if sorted != [] && sorted[|sorted| - 1].score < x.score {
      var init := sorted[..|sorted| - 1];
      var y := sorted[|sorted| - 1];
      InsertDescSorted(init, x);
      InsertDescLowerBound(init, x, y.score);
    }
  }

  /** The sorted hits are in non-increasing score order. */
  lemma {:induction false} SortDescSorted(xs: seq<Hit>)
    ensures SortedDesc(SortDesc(xs))
    decreases |xs|
  {
    if xs != [] {
      SortDescSorted(xs[..|xs| - 1]);
      InsertDescSorted(SortDesc(xs[..|xs| - 1]), xs[|xs| - 1]);
    }
  }

  /** Sorting neither adds nor drops a hit. */
  lemma {:induction false} SortDescPermutation(xs: seq<Hit>)
    ensures multiset(SortDesc(xs)) == multiset(xs)
    decreases |xs|
  {
    if xs != [] {
      SortDescPermutation(xs[..|xs| - 1]);
      InsertDescPermutation(SortDesc(xs[..|xs| - 1]), xs[|xs| - 1]);
      assert xs == xs[..|xs| - 1] + [xs[|xs| - 1]];
    }
  }

  /** The hits with score `s`, in order. */
  function WithScore(xs: seq<Hit>, s: int): seq<Hit> {
    if xs == [] then []
    else WithScore(xs[..|xs| - 1], s) + (if xs[|xs| - 1].score == s then [xs[|xs| - 1]] else [])
  }

  /** `x` alone when it has score `s`. */
  function Only(x: Hit, s: int): seq<Hit> {
    if x.score == s then [x] else []
  }

  lemma WithScoreSnoc(xs: seq<Hit>, x: Hit, s: int)
    ensures WithScore(xs + [x], s) == WithScore(xs, s) + Only(x, s)
  {
    assert (xs + [x])[..|xs|] == xs;
  }

  /** Inserting `x` adds it to the hits of its own score, after those already there. */
  lemma {:induction false} InsertDescWithScore(sorted: seq<Hit>, x: Hit, s: int)
    ensures WithScore(InsertDesc(sorted, x), s) == WithScore(sorted, s) + Only(x, s)
    decreases |sorted|
  {
    if sorted != [] && sorted[|sorted| - 1].score < x.score {
      var init := sorted[..|sorted| - 1];
      var y := sorted[|sorted| - 1];
      var i := InsertDesc(init, x);
      assert InsertDesc(sorted, x) == i + [y];
      assert sorted == init + [y];
      InsertDescWithScore(init, x, s);
      WithScoreSnoc(i, y, s);
      WithScoreSnoc(init, y, s);
      if x.score == s {
        assert Only(y, s) == [];
        assert WithScore(sorted, s) == WithScore(init, s);
        assert WithScore(i + [y], s) == WithScore(init, s) + Only(x, s);
      } else {
        assert Only(x, s) == [];
        assert WithScore(i, s) == WithScore(init, s);
        assert WithScore(i + [y], s) == WithScore(sorted, s);
      }
    } else {
      WithScoreSnoc(sorted, x, s);
    }
  }

  /** The sort is stable: for every score, the hits with that score keep their input order. */
  lemma {:induction false} SortDescStable(xs: seq<Hit>, s: int)
    ensures WithScore(SortDesc(xs), s) == WithScore(xs, s)
    decreases |xs|
  {
    if xs != [] {
      var init := xs[..|xs| - 1];
      var y := xs[|xs| - 1];
      assert SortDesc(xs) == InsertDesc(SortDesc(init), y);
      SortDescStable(init, s);
      InsertDescWithScore(SortDesc(init), y, s);
      assert WithScore(SortDesc(xs), s) == WithScore(init, s) + Only(y, s);
      assert WithScore(xs, s) == WithScore(init, s) + Only(y, s);
    }
  }

  /** Hits that already arrive in non-increasing order are returned as they are. */
  lemma {:induction false} SortDescOfSorted(xs: seq<Hit>)
    requires SortedDesc(xs)
    ensures SortDesc(xs) == xs
    decreases |xs|
  {
    if xs != [] {
      var init := xs[..|xs| - 1];
      assert SortedDesc(init);
      SortDescOfSorted(init);
    }
  }

  /** `InsertDesc` places `x` right after the last element scoring at least as high as `x`. */
  lemma {:induction false} InsertDescSplit(s: seq<Hit>, x: Hit, j: nat)
    requires j <= |s|
    requires j == 0 || s[j - 1].score >= x.score
    requires forall k :: j <= k < |s| ==> s[k].score < x.score
    ensures InsertDesc(s, x) == s[..j] + [x] + s[j..]
    decreases |s|
  {
    if |s| == j {
      assert s[..j] == s && s[j..] == [];
    } else {
      var init := s[..|s| - 1];
      InsertDescSplit(init, x, j);
      assert init[..j] == s[..j];
      SliceSnoc(s, j);
    }
  }

  /**
   * Shifts right by one slot the run of elements just below index `i` whose
   * score is lower than `score`, leaving a hole at the returned index `j`.
   */
  method ShiftLower(a: array<Hit>, i: nat, score: int) returns (j: nat)
    requires i < a.Length
    modifies a
    ensures j <= i
    ensures forall k :: 0 <= k < j ==> a[k] == old(a[k])
    ensures forall k {:trigger a[k]} :: j < k <= i ==> a[k] == old(a[k - 1])
    ensures forall k :: i < k < a.Length ==> a[k] == old(a[k])
    ensures j == 0 || old(a[j - 1]).score >= score
    ensures forall k :: j <= k < i ==> old(a[k]).score < score
  {
    j := i;
    while j > 0 && a[j - 1].score < score
      invariant 0 <= j <= i
      invariant forall k :: 0 <= k < j ==> a[k] == old(a[k])
      invariant forall k {:trigger a[k]} :: j < k <= i ==> a[k] == old(a[k - 1])
      invariant forall k :: i < k < a.Length ==> a[k] == old(a[k])
      invariant forall k :: j <= k < i ==> old(a[k]).score < score
    {
      a[j] := a[j - 1];
      j := j - 1;
    }
  }

  /** One step of the insertion sort: `a[i]` moves left past the strictly lower scores before it. */
  method InsertNext(a: array<Hit>, i: nat)
    requires i < a.Length
    modifies a
    ensures a[..i + 1] == InsertDesc(old(a[..i]), old(a[i]))
    ensures a[i + 1..] == old(a[i + 1..])
  {
    ghost var s := a[..i];
    ghost var rest := a[i + 1..];
    var x := a[i];
    var j := ShiftLower(a, i, x.score);
    a[j] := x;
    ghost var r := s[..j] + [x] + s[j..];
    InsertDescSplit(s, x, j);
    forall k | 0 <= k <= i
      ensures a[k] == r[k]
    {
      if k < j {
        assert r[k] == s[k];
      } else if j < k {
        assert r[k] == s[k - 1];
      }
    }
    assert a[..i + 1] == r;
    forall k | i < k < a.Length
      ensures a[k] == rest[k - i - 1]
    {
    }
    assert a[i + 1..] == rest;
  }

  /** `diseases.sort(key=lambda x: x["score"], reverse=True)`, in place: an insertion sort that moves a hit only past strictly lower scores. */
  method SortByScore(a: array<Hit>)
    modifies a
    ensures a[..] == SortDesc(old(a[..]))
  {
    ghost var input := a[..];
    var i := 0;
    while i < a.Length
      invariant i <= a.Length
      invariant a[..i] == SortDesc(input[..i])
      invariant a[i..] == input[i..]
    {
      assert a[i] == input[i];
      assert input[..i + 1][..i] == input[..i];
      InsertNext(a, i);
      i := i + 1;
    }
    assert a[..i] == a[..];
    assert input[..i] == input;
  }

  /** `search_disease_by_name` after the response has been read: the disease hits, sorted by score. */
  method SearchDiseaseByName(hits: seq<Hit>) returns (diseases: seq<Hit>)
    ensures diseases == SortDesc(DiseaseHits(hits))
  {
    var kept := DiseaseHits(hits);
    var a := new Hit[|kept|](k requires 0 <= k < |kept| => kept[k]);
    assert a[..] == kept;
    SortByScore(a);
    diseases := a[..];
  }

  // ---------------------------------------------------------------------------
  // extract_top_targets_summary

  datatype Tractability = Tractability(labelText: string, modality: string, value: bool)

  datatype DrugRow = DrugRow(drugType: string, phase: Option<int>, mechanismOfAction: string)

  datatype KnownDrugs = KnownDrugs(count: int, rows: seq<DrugRow>)

  /**
   * A target as the service returns it. `functions` and `tractability` are
   * `None` when the key is absent; `knownDrugs` is `None` when the service
   * sends null for it.
   */
  datatype Gene = Gene(id: string, symbol: string, name: string, functions: Option<seq<string>>,
                       tractability: Option<seq<Tractability>>, knownDrugs: Option<KnownDrugs>)

  datatype TargetRow = TargetRow(score: int, target: Gene)

  /** `max(...)` with `default="N/A"`: the highest phase, or N/A. */
  datatype MaxPhase = NotAvailable | Phase(n: int)

  datatype Summary = Summary(symbol: string, name: string, score: int, functions: seq<string>,
                             tractability: seq<string>, drugCount: Option<int>, maxPhase: MaxPhase)

  /** `[l["label"] for l in tractability if l["value"]]`. */
  function TractableLabels(ts: seq<Tractability>): seq<string> {
    if ts == [] then []
    else TractableLabels(ts[..|ts| - 1]) + (if ts[|ts| - 1].value then [ts[|ts| - 1].labelText] else [])
  }

  /** The labels of a concatenation are the labels of each part, in order. */
  lemma {:induction false} TractableLabelsAppend(a: seq<Tractability>, b: seq<Tractability>)
    ensures TractableLabels(a + b) == TractableLabels(a) + TractableLabels(b)
    decreases |b|
  {
    if b != [] {
      TractableLabelsAppend(a, b[..|b| - 1]);
      assert (a + b)[..|a + b| - 1] == a + b[..|b| - 1];
    } else {
      assert a + b == a;
    }
  }

  /** One label per entry whose value is true. */
  lemma {:induction false} TractableLabelsCount(ts: seq<Tractability>)
    ensures |TractableLabels(ts)| == |set k | 0 <= k < |ts| && ts[k].value|
    decreases |ts|
  {
    if ts != [] {
      var n := |ts|;
      var init := ts[..n - 1];
      TractableLabelsCount(init);
      var s := set k | 0 <= k < n && ts[k].value;
      var s0 := set k | 0 <= k < n - 1 && init[k].value;
      if ts[n - 1].value {
        assert s == s0 + {n - 1};
      } else {
        assert s == s0;
      }
    }
  }

  /** A label is listed exactly when some entry with that label has value true. */
  lemma {:induction false} TractableLabelsMembers(ts: seq<Tractability>)
    ensures forall l :: l in TractableLabels(ts) <==> exists k :: 0 <= k < |ts| && ts[k].value && ts[k].labelText == l
    decreases |ts|
  {
    if ts != [] {
      var n := |ts|;
      var init := ts[..n - 1];
      TractableLabelsMembers(init);
      forall l | l in TractableLabels(ts)
        ensures exists k :: 0 <= k < n && ts[k].value && ts[k].labelText == l
      {
        if l in TractableLabels(init) {
          var k :| 0 <= k < n - 1 && init[k].value && init[k].labelText == l;
          assert ts[k] == init[k];
        }
      }
      forall l | exists k :: 0 <= k < n && ts[k].value && ts[k].labelText == l
        ensures l in TractableLabels(ts)
      {
        var k :| 0 <= k < n && ts[k].value && ts[k].labelText == l;
        if k < n - 1 {
          assert init[k] == ts[k];
        }
      }
    }
  }

  /** The highest phase among the drug rows that have one, or N/A when none has. */
  function HighestPhase(rows: seq<DrugRow>): (m: MaxPhase)
    ensures m == NotAvailable <==> forall k :: 0 <= k < |rows| ==> rows[k].phase.None?
    ensures m.Phase? ==> (
      && (exists k :: 0 <= k < |rows| && rows[k].phase == Some(m.n))
      && forall k :: 0 <= k < |rows| && rows[k].phase.Some? ==> rows[k].phase.value <= m.n)
  {
    if rows == [] then NotAvailable
    else
      var init := rows[..|rows| - 1];
      var last := rows[|rows| - 1];
      var m := HighestPhase(init);
      assert forall k :: 0 <= k < |init| ==> init[k] == rows[k];
      if last.phase.None? then m
      else if m.Phase? && m.n >= last.phase.value then m
      else Phase(last.phase.value)
  }

  /**
   * The entry for one target row, as evidently intended: a target with no
   * known drugs (null) gets no count and max phase N/A.
   */
  function SummarizeTarget(row: TargetRow): (s: Summary)
    ensures s.symbol == row.target.symbol && s.name == row.target.name && s.score == row.score
    ensures s.functions == if row.target.functions.Some? then row.target.functions.value else []
    ensures s.tractability == if row.target.tractability.Some? then TractableLabels(row.target.tractability.value) else []
    ensures row.target.knownDrugs.None? ==> s.drugCount.None? && s.maxPhase == NotAvailable
    ensures row.target.knownDrugs.Some? ==>
      s.drugCount == Some(row.target.knownDrugs.value.count) && s.maxPhase == HighestPhase(row.target.knownDrugs.value.rows)
  {
    var gene := row.target;
    Summary(gene.symbol, gene.name, row.score,
            if gene.functions.Some? then gene.functions.value else [],
            if gene.tractability.Some? then TractableLabels(gene.tractability.value) else [],
            if gene.knownDrugs.Some? then Some(gene.knownDrugs.value.count) else None,
            if gene.knownDrugs.Some? then HighestPhase(gene.knownDrugs.value.rows) else NotAvailable)
  }

  /**
   * The entry for one target row as the code is written: the dict literal
   * reads `gene["knownDrugs"]["count"]` before the guard of `max_phase`, so a
   * null `knownDrugs` raises TypeError.
   */
  function SummarizeTargetAsWritten(row: TargetRow): Result<Summary, string> {
    var gene := row.target;
    if gene.knownDrugs.None? then Err("TypeError: 'NoneType' object is not subscriptable")
    else
      Ok(Summary(gene.symbol, gene.name, row.score,
                 if gene.functions.Some? then gene.functions.value else [],
                 if gene.tractability.Some? then TractableLabels(gene.tractability.value) else [],
                 Some(gene.knownDrugs.value.count),
                 if gene.knownDrugs.Some? then HighestPhase(gene.knownDrugs.value.rows) else NotAvailable))
  }

  /**
   * The written code never reaches its "N/A" fallback for a missing
   * `knownDrugs`: every row without known drugs raises, and wherever it does
   * not raise it agrees with the intended summary.
   */
  lemma AsWrittenNeverFallsBack(row: TargetRow)
    ensures row.target.knownDrugs.None? <==> SummarizeTargetAsWritten(row).Err?
    ensures SummarizeTargetAsWritten(row).Ok? ==> SummarizeTargetAsWritten(row).value == SummarizeTarget(row)
  {
  }

  /** A concrete target that shows it: no known drugs. */
  lemma TargetWithoutDrugs()
    ensures var row := TargetRow(1, Gene("ENSG1", "ABC1", "Example", None, Some([]), None));
      && SummarizeTargetAsWritten(row).Err?
      && SummarizeTarget(row).maxPhase == NotAvailable
  {
  }

  /** The loop of `extract_top_targets_summary`: one entry per target row, in row order. */
  method ExtractTopTargetsSummary(rows: seq<TargetRow>) returns (summaries: seq<Summary>)
    ensures |summaries| == |rows|
    ensures forall k :: 0 <= k < |rows| ==> summaries[k] == SummarizeTarget(rows[k])
  {
    summaries := [];
    for k := 0 to |rows|
      invariant |summaries| == k
      invariant forall m :: 0 <= m < k ==> summaries[m] == SummarizeTarget(rows[m])
    {
      summaries := summaries + [SummarizeTarget(rows[k])];
    }
  }

  /** The written loop: the whole call raises at the first row whose `knownDrugs` is null. */
  function ExtractAsWritten(rows: seq<TargetRow>): Result<seq<Summary>, string> {
    if rows == [] then Ok([])
    else
      var first := SummarizeTargetAsWritten(rows[0]);
      if first.Err? then Err(first.error)
      else
        var rest := ExtractAsWritten(rows[1..]);
        if rest.Err? then rest else Ok([first.value] + rest.value)
  }

  /** The written loop succeeds exactly when every row has known drugs. */
  lemma {:induction false} ExtractAsWrittenOk(rows: seq<TargetRow>)
    ensures ExtractAsWritten(rows).Ok? <==> forall k :: 0 <= k < |rows| ==> rows[k].target.knownDrugs.Some?
    decreases |rows|
  {
    if rows != [] {
      ExtractAsWrittenOk(rows[1..]);
      assert forall k :: 1 <= k < |rows| ==> rows[k] == rows[1..][k - 1];
    }
  }

  /** When the written loop succeeds, it gives the intended entry for every row, in order. */
  lemma {:induction false} ExtractAsWrittenValue(rows: seq<TargetRow>)
    requires ExtractAsWritten(rows).Ok?
    ensures ExtractAsWritten(rows).value == seq(|rows|, k requires 0 <= k < |rows| => SummarizeTarget(rows[k]))
    decreases |rows|
  {
    if rows != [] {
      ExtractAsWrittenValue(rows[1..]);
      AsWrittenNeverFallsBack(rows[0]);
      var r := ExtractAsWritten(rows).value;
      var tail := ExtractAsWritten(rows[1..]).value;
      assert r == [SummarizeTarget(rows[0])] + tail;
      forall k | 0 <= k < |rows|
        ensures r[k] == SummarizeTarget(rows[k])
      {
        if k > 0 {
          assert r[k] == tail[k - 1];
          assert rows[1..][k - 1] == rows[k];
        }
      }
    }
  }
}
