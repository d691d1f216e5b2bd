/**
 * The per-sample analysis run: for each expected sample name, look the sheet
 * up in the workbook, extract and fit it when it is there, record "N/A" when
 * it is not, and report the R² total divided by the number of expected
 * samples.
 */
module Aggregation {
  import opened Regression
  import opened Extraction

  /** The sheets of a workbook, by sheet name. */
  type Workbook = map<string, Table>

  /** The sample sheets the analysis looks for, in report order. */
  const ExpectedSamples: seq<string> := ["Amostra1", "Amostra2", "Amostra3", "Amostra4"]

  /** The result column of a record: the fit and its R², or "N/A" for a
      sample the workbook does not have. */
  datatype Summary = Unavailable | Analysed(result: RegressionResult)

  /** One row of the report. */
  datatype SampleRecord = SampleRecord(sample: string, summary: Summary)

  /** Extraction, fit and score of one sheet. */
  function Analyse(t: Table): (r: RegressionResult)
    ensures r.fit == LeastSquares(Column(t, 0), Column(t, 1))
    ensures r.fit.Line? ==> r.rSquared == RSquared(Column(t, 0), Column(t, 1), r.fit.slope, r.fit.intercept)
    ensures r.fit.DegenerateFit? ==> r.rSquared == DegenerateScore
    ensures r.rSquared.Finite? ==> r.fit.Line? && 0.0 <= r.rSquared.value <= 1.0
  {
    LinearRegression(Column(t, 0), Column(t, 1))
  }

  /** The report row for one sample name. */
  function RecordFor(workbook: Workbook, sample: string): (r: SampleRecord)
    ensures r.sample == sample
    ensures r.summary.Unavailable? <==> sample !in workbook
    ensures r.summary.Analysed? ==> r.summary.result == Analyse(workbook[sample])
  {
    if sample in workbook then SampleRecord(sample, Analysed(Analyse(workbook[sample])))
    else SampleRecord(sample, Unavailable)
  }

  /** Floating-point addition where a NaN operand makes the sum NaN. */
  function AddScore(total: Score, r: Score): (sum: Score)
    ensures sum.Finite? <==> total.Finite? && r.Finite?
    ensures sum.Finite? ==> sum.value == total.value + r.value
  {
    if total.Finite? && r.Finite? then Finite(total.value + r.value) else DegenerateScore
  }

  /** What a record adds to `totalR2`: its R² when the sample was analysed,
      nothing when it was missing. */
  function Contribution(record: SampleRecord): Score
  {
    if record.summary.Analysed? then record.summary.result.rSquared else Finite(0.0)
  }

  /** The accumulator `totalR2` after the given records, in order. */
  function TotalR2(records: seq<SampleRecord>): Score
  {
    if |records| == 0 then Finite(0.0)
    else AddScore(TotalR2(records[..|records| - 1]), Contribution(records[|records| - 1]))
  }

  /** `totalR2 / samples.length`: NaN stays NaN and 0 / 0 is NaN. */
  function MeanR2(total: Score, count: nat): (mean: Score)
    ensures mean.Finite? <==> total.Finite? && count > 0
    ensures mean.Finite? ==> mean.value * count as real == total.value
  {
    if count == 0 || total.DegenerateScore? then DegenerateScore
    else Finite(total.value / count as real)
  }

  /** The records of the samples that were found, in order: every analysed
      record is kept, and nothing else. */
  function FoundRecords(records: seq<SampleRecord>): (r: seq<SampleRecord>)
    ensures |r| <= |records|
    ensures forall i :: 0 <= i < |r| ==> r[i].summary.Analysed? && r[i] in records
    ensures forall i :: 0 <= i < |records| && records[i].summary.Analysed? ==> records[i] in r
  {
    if |records| == 0 then []
    else
      var front, last := records[..|records| - 1], records[|records| - 1];
      assert forall i :: 0 <= i < |front| ==> front[i] == records[i];
      FoundRecords(front) + (if last.summary.Analysed? then [last] else [])
  }

  /** The positions of the analysed records: the k-th found record is the
      record at the k-th position. */
  function FoundIndices(records: seq<SampleRecord>): (r: seq<nat>)
    ensures |r| == |FoundRecords(records)|
    ensures forall k :: 0 <= k < |r| ==> r[k] < |records| && records[r[k]] == FoundRecords(records)[k]
  {
    if |records| == 0 then []
    else
      var front := FoundIndices(records[..|records| - 1]);
      assert forall k :: 0 <= k < |front| ==> records[..|records| - 1][front[k]] == records[front[k]];
      front + (if records[|records| - 1].summary.Analysed? then [|records| - 1] else [])
  }

  /** Every analysed record carries a fit score that is NaN or lies in [0, 1],
      as every least-squares score does. */
  predicate ScoresInUnitInterval(records: seq<SampleRecord>)
  {
    forall i :: 0 <= i < |records| && records[i].summary.Analysed? && records[i].summary.result.rSquared.Finite? ==>
      0.0 <= records[i].summary.result.rSquared.value <= 1.0
  }

  /** Some analysed record has a NaN score. */
  predicate SomeDegenerate(records: seq<SampleRecord>)
  {
    exists i :: 0 <= i < |records| && records[i].summary.Analysed? && records[i].summary.result.rSquared.DegenerateScore?
  }

  /** The `forEach` callback for one sample: look the sheet up; when it is
      there, extract, fit, add the R² to the running total and record the
      fit; when it is missing, record "N/A" and leave the total alone. */
  method VisitSample(workbook: Workbook, sample: string, records: seq<SampleRecord>, totalR2: Score)
    returns (records': seq<SampleRecord>, totalR2': Score)
    ensures records' == records + [RecordFor(workbook, sample)]
    ensures totalR2' == AddScore(totalR2, Contribution(RecordFor(workbook, sample)))
  {
    if sample in workbook {
      var xValues, yValues := ExtractXY(workbook[sample]);
      var result := LinearRegression(xValues, yValues);
      totalR2' := AddScore(totalR2, result.rSquared);
      records' := records + [SampleRecord(sample, Analysed(result))];
    } else {
      totalR2' := totalR2;
      records' := records + [SampleRecord(sample, Unavailable)];
    }
  }

  /** The body of the file-load handler: one record per expected sample, in
      order, and the mean R² over all of them. */
  method ProcessSamples(workbook: Workbook, samples: seq<string>) returns (records: seq<SampleRecord>, meanR2: Score)
    ensures |records| == |samples|
    ensures forall i :: 0 <= i < |samples| ==> records[i] == RecordFor(workbook, samples[i])
    ensures ScoresInUnitInterval(records)
    ensures meanR2 == MeanR2(TotalR2(records), |samples|)
  {
    records := [];
    var totalR2 := Finite(0.0);
    for i := 0 to |samples|
      invariant |records| == i
      invariant forall k :: 0 <= k < i ==> records[k] == RecordFor(workbook, samples[k])
      invariant ScoresInUnitInterval(records)
      invariant totalR2 == TotalR2(records)
    {
      var records', totalR2' := VisitSample(workbook, samples[i], records, totalR2);
      assert records'[..i] == records;
      records, totalR2 := records', totalR2';
    }
    meanR2 := MeanR2(totalR2, |samples|);
  }

  /** The run over the fixed list of sample sheets. */
  method ProcessWorkbook(workbook: Workbook) returns (records: seq<SampleRecord>, meanR2: Score)
    ensures |records| == 4
    ensures forall i :: 0 <= i < 4 ==> records[i] == RecordFor(workbook, ExpectedSamples[i])
    ensures ScoresInUnitInterval(records)
    ensures meanR2 == MeanR2(TotalR2(records), 4)
  {
    records, meanR2 := ProcessSamples(workbook, ExpectedSamples);
  }

  // ---------------------------------------------------------------------------
  // What the run promises

  /** A missing sample adds nothing: the total over all records equals the
      total over the analysed ones alone. */
  lemma {:induction false} MissingSamplesAddNothing(records: seq<SampleRecord>)
    ensures TotalR2(records) == TotalR2(FoundRecords(records))
  {
    if |records| > 0 {
      var front, last := records[..|records| - 1], records[|records| - 1];
      MissingSamplesAddNothing(front);
      var p := FoundRecords(front);
      if last.summary.Analysed? {
        assert (p + [last])[..|p + [last]| - 1] == p;
      } else {
        assert FoundRecords(records) == p;
      }
    }
  }

  /** The total is NaN exactly when some analysed sample scored NaN. */
  lemma {:induction false} TotalDegenerateIff(records: seq<SampleRecord>)
    ensures TotalR2(records).DegenerateScore? <==> SomeDegenerate(records)
  {
    if |records| > 0 {
      var front := records[..|records| - 1];
      TotalDegenerateIff(front);
      if SomeDegenerate(front) {
        var i :| 0 <= i < |front| && front[i].summary.Analysed? && front[i].summary.result.rSquared.DegenerateScore?;
        assert records[i] == front[i];
      }
      if SomeDegenerate(records) {
        var i :| 0 <= i < |records| && records[i].summary.Analysed? && records[i].summary.result.rSquared.DegenerateScore?;
        if i < |front| {
          assert front[i] == records[i];
        }
      }
    }
  }

  /** The found records keep the order of the run. */
  lemma {:induction false} FoundIndicesIncreasing(records: seq<SampleRecord>)
    ensures forall k, l :: 0 <= k < l < |FoundIndices(records)| ==> FoundIndices(records)[k] < FoundIndices(records)[l]
  {
    if |records| > 0 {
      FoundIndicesIncreasing(records[..|records| - 1]);
    }
  }

  /** Every analysed record's position is listed: no found sample is dropped. */
  lemma {:induction false} FoundIndicesComplete(records: seq<SampleRecord>)
    ensures forall i :: 0 <= i < |records| && records[i].summary.Analysed? ==> i in FoundIndices(records)
  {
    if |records| > 0 {
      var front := records[..|records| - 1];
      FoundIndicesComplete(front);
      assert forall i :: 0 <= i < |front| ==> front[i] == records[i];
    }
  }

  /** With scores in [0, 1], a finite total lies between 0 and the number of records. */
  lemma {:induction false} TotalAtMostCount(records: seq<SampleRecord>)
    requires ScoresInUnitInterval(records)
    ensures TotalR2(records).Finite? ==> 0.0 <= TotalR2(records).value <= |records| as real
  {
    if |records| > 0 {
      var front := records[..|records| - 1];
      assert forall i :: 0 <= i < |front| ==> front[i] == records[i];
      TotalAtMostCount(front);
    }
  }

  lemma {:induction false} AnalysedScoresInUnitInterval(records: seq<SampleRecord>)
    requires ScoresInUnitInterval(records)
    ensures ScoresInUnitInterval(FoundRecords(records))
  {
    if |records| > 0 {
      var front := records[..|records| - 1];
      assert forall i :: 0 <= i < |front| ==> front[i] == records[i];
      AnalysedScoresInUnitInterval(front);
    }
  }

  /** A finite total lies between 0 and the number of samples found. */
  lemma {:induction false} TotalBounds(records: seq<SampleRecord>)
    requires ScoresInUnitInterval(records)
    ensures TotalR2(records).Finite? ==> 0.0 <= TotalR2(records).value <= |FoundRecords(records)| as real
  {
    MissingSamplesAddNothing(records);
    AnalysedScoresInUnitInterval(records);
    TotalAtMostCount(FoundRecords(records));
  }

  /** Dividing a total that lies between 0 and the number of found samples
      by the number of all expected samples gives a mean between 0 and the
      share of samples found, and so never above 1. */
  lemma {:induction false} MeanOfBoundedTotal(total: Score, found: nat, count: nat)
    requires found <= count
    requires total.Finite? ==> 0.0 <= total.value <= found as real
    ensures MeanR2(total, count).Finite? ==>
              0.0 <= MeanR2(total, count).value <= 1.0 && MeanR2(total, count).value * count as real <= found as real
  {
    if total.Finite? && count > 0 {
      QuotientBounds(total.value, found as real, count as real);
    }
  }

  lemma {:induction false} QuotientBounds(t: real, f: real, n: real)
    requires 0.0 <= t <= f <= n && n > 0.0
    ensures 0.0 <= t / n <= 1.0 && (t / n) * n <= f
  {
    var q := t / n;
    assert q * n == t;
  }

  /** The mean is NaN exactly when no sample is expected or some found
      sample scored NaN. */
  lemma {:induction false} MeanDegenerateIff(records: seq<SampleRecord>)
    ensures MeanR2(TotalR2(records), |records|).DegenerateScore? <==> |records| == 0 || SomeDegenerate(records)
  {
    TotalDegenerateIff(records);
  }

  /** With no sample found the total stays 0, so the mean is 0 rather than NaN. */
  lemma {:induction false} NothingFoundTotalZero(records: seq<SampleRecord>)
    requires forall i :: 0 <= i < |records| ==> records[i].summary.Unavailable?
    ensures TotalR2(records) == Finite(0.0)
  {
    MissingSamplesAddNothing(records);
    NothingAnalysed(records);
  }

  /** 0 shared out over any positive number of samples is 0. */
  lemma {:induction false} MeanOfZero(count: nat)
    requires count > 0
    ensures MeanR2(Finite(0.0), count) == Finite(0.0)
  {
  }

  lemma {:induction false} NothingAnalysed(records: seq<SampleRecord>)
    requires forall i :: 0 <= i < |records| ==> records[i].summary.Unavailable?
    ensures FoundRecords(records) == []
  {
    if |records| > 0 {
      var front := records[..|records| - 1];
      assert forall i :: 0 <= i < |front| ==> front[i] == records[i];
      NothingAnalysed(front);
    }
  }

  /** Two expected samples, the first found with R² 0.8 and the second
      missing: the mean is (0.8 + 0) / 2 = 0.4. */
  lemma {:induction false} HalfFoundExample(result: RegressionResult)
    requires result.rSquared == Finite(0.8)
    ensures MeanR2(TotalR2([SampleRecord("A", Analysed(result)), SampleRecord("B", Unavailable)]), 2) == Finite(0.4)
  {
    var records := [SampleRecord("A", Analysed(result)), SampleRecord("B", Unavailable)];
    assert records[..1] == [SampleRecord("A", Analysed(result))];
    assert records[..1][..0] == [];
    assert TotalR2(records[..1]) == Finite(0.8);
    assert TotalR2(records) == Finite(0.8);
    HalfOfFourFifths(TotalR2(records));
  }

  lemma {:induction false} HalfOfFourFifths(total: Score)
    requires total == Finite(0.8)
    ensures MeanR2(total, 2) == Finite(0.4)
  {
  }

  /** The staircase sheet (0, 0), (1, 0), (2, 1), (3, 1). */
  const Staircase: Table := [[0.0, 0.0], [1.0, 0.0], [2.0, 1.0], [3.0, 1.0]]

  lemma {:induction false} StaircaseColumns()
    ensures Column(Staircase, 0) == [0.0, 1.0, 2.0, 3.0]
    ensures Column(Staircase, 1) == [0.0, 0.0, 1.0, 1.0]
  {
    var t := Staircase;
    assert t[..1][..0] == [];
    assert Column(t[..1], 0) == [0.0] && Column(t[..1], 1) == [0.0];
    assert t[..2][..1] == t[..1];
    assert Column(t[..2], 0) == [0.0, 1.0] && Column(t[..2], 1) == [0.0, 0.0];
    assert t[..3][..2] == t[..2];
    assert Column(t[..3], 0) == [0.0, 1.0, 2.0] && Column(t[..3], 1) == [0.0, 0.0, 1.0];
    assert t[..3] == t[..|t| - 1];
  }

  /** A workbook holding only the staircase sheet under the first name: the
      run over two names reports the fit y = 0.4·x − 0.1 with R² 0.8, then
      "N/A", and a mean of 0.4. */
  lemma {:induction false} StaircaseRun()
    ensures RecordFor(map["A" := Staircase], "A")
         == SampleRecord("A", Analysed(RegressionResult(Line(0.4, -0.1), Finite(0.8))))
    ensures RecordFor(map["A" := Staircase], "B") == SampleRecord("B", Unavailable)
    ensures MeanR2(TotalR2([RecordFor(map["A" := Staircase], "A"), RecordFor(map["A" := Staircase], "B")]), 2)
         == Finite(0.4)
  {
    StaircaseColumns();
    StaircaseExample();
    HalfFoundExample(RegressionResult(Line(0.4, -0.1), Finite(0.8)));
  }
}
