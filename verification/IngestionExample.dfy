/** A data set that is accepted, reported ready and can still not be trained on. */
module IngestionExample {
  import opened Common
  import opened Text
  import opened Ingestion
  import opened IngestionTheorems

  lemma {:induction false} CleanCells(py: Python, limits: Limits, row: seq<string>, k: nat)
    requires k <= |row| && forall c | c in row :: CellFault(py, limits, c).None?
    ensures CellsFault(py, limits, row, k).None?
    decreases |row| - k
  {
    if k < |row| {
      CleanCells(py, limits, row, k + 1);
    }
  }

  lemma {:induction false} CleanRows(py: Python, limits: Limits, width: nat, rows: seq<seq<string>>, i: nat)
    requires i <= |rows| <= limits.maximumRows && AllWide(rows, width)
    requires forall r, c | r in rows && c in r :: CellFault(py, limits, c).None?
    ensures RowsFault(py, limits, width, rows, i).None?
    decreases |rows| - i
  {
    if i < |rows| {
      CleanCells(py, limits, rows[i], 0);
      CleanRows(py, limits, width, rows, i + 1);
    }
  }

  lemma StripPadded()
    ensures Strip("1") == "1" && Strip("2") == "2" && Strip("f") == "f" && Strip(" t") == "t"
  {
    StripFixes("1");
    StripFixes("2");
    StripFixes("f");
    assert SkipSpace(" t", 1, 2) == 1 && TrimSpace(" t", 1, 2) == 2;
  }

  /** What the library does with the few texts of the example. */
  predicate Plausible(py: Python) {
    && py.intText("1") == Some("1") && py.intText("2") == Some("2")
    && py.parseFloat("1").Finite? && py.parseFloat("2").Finite?
    && py.casefold("") == "" && py.casefold("1") == "1" && py.casefold("f") == "f" && py.casefold("t") == "t"
    && py.safeText("1") && py.safeText("2") && py.safeLine("f") && py.safeLine("t")
  }

  predicate Roomy(limits: Limits) {
    limits.maximumRows >= 4 && limits.maximumColumns >= 2 && limits.maximumCell >= 1
  }

  const HEADER: seq<string> := ["f", " t"]
  const NAMES: seq<string> := ["f", "t"]
  const ROWS: seq<seq<string>> := [["1", "1"], ["1", "1"], ["1", "2"], ["1", "2"]]
  const VALUES: seq<seq<string>> := [["1", "1", "1", "1"], ["1", "1", "2", "2"]]

  lemma ExampleColumn(j: nat)
    requires j < 2
    ensures AllWide(ROWS, 2) && ColumnValues(ROWS, 2, j) == VALUES[j]
  {
    StripPadded();
    assert |ColumnValues(ROWS, 2, j)| == 4 == |VALUES[j]|;
    forall i | 0 <= i < 4 ensures ColumnValues(ROWS, 2, j)[i] == VALUES[j][i] {
      assert ROWS[i][j] == VALUES[j][i] && (VALUES[j][i] == "1" || VALUES[j][i] == "2");
    }
  }

  lemma ExampleShape()
    ensures StripAll(HEADER) == NAMES && AllWide(ROWS, 2) && Transpose(ROWS, 2) == VALUES
  {
    assert StripAll(HEADER) == NAMES by { StripPadded(); }
    ExampleColumn(0);
    ExampleColumn(1);
    assert Transpose(ROWS, 2) == VALUES;
  }

  lemma PlainHeader()
    ensures StripAll(NAMES) == NAMES
  {
    StripFixes("f");
    StripFixes("t");
    assert StripAll(NAMES) == NAMES;
  }

  // ------------------------------------------------------------- acceptance

  lemma ExampleHeader(py: Python, limits: Limits)
    requires Plausible(py) && Roomy(limits)
    ensures HeaderFault(py, limits, NAMES).None?
  {
    assert NAMES[0][0] != NAMES[1][0];
    assert Distinct(py, NAMES);
    assert "" !in NAMES;
  }

  lemma ExampleRows(py: Python, limits: Limits)
    requires Plausible(py) && Roomy(limits)
    ensures AllWide(ROWS, 2) && RowsFault(py, limits, 2, ROWS, 0).None?
  {
    StripPadded();
    forall r, c | r in ROWS && c in r ensures CellFault(py, limits, c).None? {
      assert c == "1" || c == "2";
    }
    CleanRows(py, limits, 2, ROWS, 0);
  }

  lemma ExampleIntegers(py: Python, values: seq<string>)
    requires Plausible(py) && "1" in values && forall v | v in values :: v == "1" || v == "2"
    ensures InferType(py, values) == IntegerType && Present(values) != []
  {
    PresentMeaning(values);
    assert "1" in Present(values);
    assert "1"[0] != "true"[0] && "1"[0] != "false"[0];
    assert !BooleanText(py, "1");
  }

  lemma ExampleTypes(py: Python)
    requires Plausible(py)
    ensures forall j | 0 <= j < |VALUES| :: Present(VALUES[j]) != []
    ensures forall j | 0 <= j < |VALUES| :: InferType(py, VALUES[j]) == IntegerType
  {
    ExampleIntegers(py, VALUES[0]);
    ExampleIntegers(py, VALUES[1]);
  }

  lemma ExampleTargets()
    ensures "t" in NAMES && IndexOf(NAMES, "t") == 1
    ensures |Distribution(TargetValues(NAMES, VALUES, Some("t")))| >= 2
  {
    assert NAMES[1] in NAMES && IndexOf(NAMES, "t") == 1;
    var targets := TargetValues(NAMES, VALUES, Some("t"));
    PresentMeaning(VALUES[1]);
    assert VALUES[1][0] in targets && VALUES[1][2] in targets;
    SubsetSize({"1", "2"}, Distribution(targets).Keys);
  }

  lemma ExampleReady(py: Python, columns: seq<Column>)
    requires |columns| == 2 && columns[0].dataType == IntegerType && columns[1].dataType == IntegerType
    ensures "t" in NAMES && ReadinessOf(py, NAMES, VALUES, columns, Some("t"), None).ready
  {
    ExampleTargets();
    assert NAMES[0] in NAMES;
    assert "f" in FeatureNames(NAMES, Some("t"), None);
    ReadyExactly(py, NAMES, VALUES, columns, Some("t"), None);
  }

  lemma ExampleConcludes(py: Python, names: seq<string>, values: seq<seq<string>>, target: string)
    requires |names| == |values| && (forall j | 0 <= j < |values| :: Present(values[j]) != [])
    requires ValidConfiguration(names, Some(target), None)
    ensures
      var result := Conclude(py, names, values, 4, Some(target), None);
      && result.Ok? && result.value.columns == InferColumns(py, names, values)
      && result.value.readiness == ReadinessOf(py, names, values, InferColumns(py, names, values), Some(target), None)
  {
  }

  lemma ExampleConcluded(py: Python)
    requires Plausible(py)
    ensures
      var result := Conclude(py, NAMES, VALUES, 4, Some("t"), None);
      && result.Ok? && result.value.readiness.ready
      && result.value.columns == InferColumns(py, NAMES, VALUES)
  {
    ExampleTypes(py);
    assert ValidConfiguration(NAMES, Some("t"), None) by { assert NAMES[1] in NAMES; }
    ExampleReady(py, InferColumns(py, NAMES, VALUES));
    ExampleConcludes(py, NAMES, VALUES, "t");
  }

  lemma ExampleAccepted(py: Python, limits: Limits, header: seq<string>)
    requires Plausible(py) && Roomy(limits) && StripAll(header) == NAMES
    ensures Ingest(py, limits, header, ROWS, Some("t"), None).Ok?
    ensures Ingest(py, limits, header, ROWS, Some("t"), None).value.readiness.ready
    ensures Ingest(py, limits, header, ROWS, Some("t"), None).value.columns == InferColumns(py, NAMES, VALUES)
  {
    ExampleShape();
    ExampleHeader(py, limits);
    ExampleRows(py, limits);
    ExampleConcluded(py);
  }

  // ----------------------------------------------------------- two snapshots

  /** Ready is not enough: with a padded target header the rows are accepted and
      reported ready, and every snapshot of them fails. */
  lemma PaddedHeaderCannotTrain(py: Python, limits: Limits, fraction: real)
    requires Plausible(py) && Roomy(limits) && 0.1 <= fraction <= 0.4
    ensures Ingest(py, limits, HEADER, ROWS, Some("t"), None).Ok?
    ensures Ingest(py, limits, HEADER, ROWS, Some("t"), None).value.readiness.ready
    ensures TrainingSnapshot(py, HEADER, ROWS, NAMES, Some("t"), None, fraction).Err?
  {
    ExampleShape();
    ExampleAccepted(py, limits, HEADER);
    ReadyDataTrains(py, limits, HEADER, ROWS, Some("t"), None, fraction);
    assert HEADER[1] != NAMES[1];
  }

  lemma ExampleColumnServes(py: Python, column: Column, j: nat)
    requires Plausible(py) && j < 2 && !column.nullable
    ensures ColumnServes(py, column, VALUES[j])
  {
    forall v | v in VALUES[j] ensures py.parseFloat(v).Finite? {
      assert v == "1" || v == "2";
    }
  }

  lemma AllColumnsServe(py: Python, header: seq<string>, rows: seq<seq<string>>, columns: seq<Column>)
    requires header == StripAll(header) && AllWide(rows, |header|) && |columns| == |header|
    requires forall j | 0 <= j < |header| :: ColumnServes(py, columns[j], ColumnValues(rows, |header|, j))
    ensures Trainable(py, header, rows, columns, None)
  {
  }

  lemma ExampleServes(py: Python)
    requires Plausible(py)
    ensures AllWide(ROWS, |NAMES|)
    ensures Trainable(py, NAMES, ROWS, InferColumns(py, NAMES, VALUES), None)
  {
    var columns := InferColumns(py, NAMES, VALUES);
    forall j | 0 <= j < |NAMES|
      ensures AllWide(ROWS, 2) && ColumnServes(py, columns[j], ColumnValues(ROWS, 2, j))
    {
      ExampleColumn(j);
      ExampleColumnServes(py, columns[j], j);
    }
    PlainHeader();
    AllColumnsServe(py, NAMES, ROWS, columns);
  }

  /** With the header unpadded, every snapshot of the same rows succeeds. */
  lemma PlainHeaderTrains(py: Python, limits: Limits, fraction: real)
    requires Plausible(py) && Roomy(limits) && 0.1 <= fraction <= 0.4
    ensures Ingest(py, limits, NAMES, ROWS, Some("t"), None).Ok?
    ensures Ingest(py, limits, NAMES, ROWS, Some("t"), None).value.readiness.ready
    ensures TrainingSnapshot(py, NAMES, ROWS, NAMES, Some("t"), None, fraction).Ok?
  {
    PlainHeader();
    ExampleAccepted(py, limits, NAMES);
    ReadyDataTrains(py, limits, NAMES, ROWS, Some("t"), None, fraction);
    ExampleServes(py);
  }
}
