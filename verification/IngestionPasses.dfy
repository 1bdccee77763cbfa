/** The loops of the two passes, proved against their specifications. */
module IngestionPasses {
  import opened Common
  import opened Text
  import opened Ingestion

  lemma CellsFaultFrom(py: Python, limits: Limits, row: seq<string>, k: nat)
    requires k < |row|
    ensures CellsFault(py, limits, row, k)
            == if CellFault(py, limits, row[k]).Some? then CellFault(py, limits, row[k])
               else CellsFault(py, limits, row, k + 1)
  {
  }

  /** The checks on one cell, in order. */
  method CheckCell(py: Python, limits: Limits, value: string) returns (fault: Option<IngestionError>)
    ensures forall raw | Strip(raw) == value :: fault == CellFault(py, limits, raw)
  {
    if |value| > limits.maximumCell { return Some(OversizedValue); }
    if !py.safeText(value) { return Some(UnsafeValue); }
    if LooksExecutable(py, value) { return Some(FormulaValue); }
    return None;
  }

  /** How far the columns are filled: one cell more in those before `k`. */
  predicate Filled(rows: seq<seq<string>>, width: nat, i: nat, k: nat, columns: seq<seq<string>>)
    requires i <= |rows| && AllWide(rows[..i], width) && k <= width
    requires k > 0 ==> i < |rows| && |rows[i]| == width
  {
    && |columns| == width
    && forall j | 0 <= j < width ::
         columns[j] == ColumnValues(rows[..i], width, j) + if j < k then [Strip(rows[i][j])] else []
  }

  lemma RowFilled(rows: seq<seq<string>>, width: nat, i: nat, columns: seq<seq<string>>)
    requires i < |rows| && AllWide(rows[..i], width) && |rows[i]| == width
    requires Filled(rows, width, i, width, columns)
    ensures AllWide(rows[..i + 1], width) && Filled(rows, width, i + 1, 0, columns)
  {
    assert rows[..i + 1] == rows[..i] + [rows[i]];
    forall j | 0 <= j < width ensures columns[j] == ColumnValues(rows[..i + 1], width, j) {
      assert ColumnValues(rows[..i + 1], width, j) == ColumnValues(rows[..i], width, j) + [Strip(rows[i][j])];
    }
  }

  /** One row: its cells are checked and appended to the columns in turn. */
  method ReadRow(py: Python, limits: Limits, width: nat, rows: seq<seq<string>>, i: nat, columns: seq<seq<string>>)
    returns (result: Result<seq<seq<string>>, IngestionError>)
    requires i < |rows| && AllWide(rows[..i], width) && Filled(rows, width, i, 0, columns)
    ensures RowFault(py, limits, width, rows[i], i).Some? ==>
              result == Err(RowFault(py, limits, width, rows[i], i).value)
    ensures RowFault(py, limits, width, rows[i], i).None? ==>
              |rows[i]| == width && result.Ok? && Filled(rows, width, i, width, result.value)
  {
    var row := rows[i];
    if i + 1 > limits.maximumRows { return Err(TooManyRows); }
    if |row| != width { return Err(WidthMismatch); }
    var filled := columns;
    var index := 0;
    while index < |row|
      invariant index <= |row|
      invariant Filled(rows, width, i, index, filled)
      invariant RowFault(py, limits, width, row, i) == CellsFault(py, limits, row, index)
    {
      CellsFaultFrom(py, limits, row, index);
      var value := Strip(row[index]);
      var fault := CheckCell(py, limits, value);
      if fault.Some? { return Err(fault.value); }
      filled := filled[index := filled[index] + [value]];
      index := index + 1;
    }
    return Ok(filled);
  }

  /** The row loop: the first fault, or all cells stripped, column by column. */
  method ReadColumns(py: Python, limits: Limits, width: nat, rows: seq<seq<string>>)
    returns (result: Result<seq<seq<string>>, IngestionError>)
    ensures result == match RowsFault(py, limits, width, rows, 0)
                      case Some(e) => Err(e)
                      case None => Ok(Transpose(rows, width))
  {
    var columns: seq<seq<string>> := seq(width, _ => []);
    var i := 0;
    while i < |rows|
      invariant i <= |rows|
      invariant AllWide(rows[..i], width) && Filled(rows, width, i, 0, columns)
      invariant RowsFault(py, limits, width, rows, 0) == RowsFault(py, limits, width, rows, i)
    {
      var read := ReadRow(py, limits, width, rows, i, columns);
      if read.Err? { return Err(read.error); }
      RowFilled(rows, width, i, read.value);
      columns := read.value;
      i := i + 1;
    }
    assert rows[..|rows|] == rows;
    forall j | 0 <= j < width ensures columns[j] == Transpose(rows, width)[j] {
      assert columns[j] == ColumnValues(rows, width, j);
    }
    assert columns == Transpose(rows, width);
    return Ok(columns);
  }

  lemma KeepNext<T>(items: seq<T>, sides: seq<Side>, i: nat, side: Side)
    requires i < |items| == |sides|
    ensures Keep(items[..i + 1], sides[..i + 1], side)
            == Keep(items[..i], sides[..i], side) + if sides[i] == side then [items[i]] else []
  {
    assert items[..i + 1][..i] == items[..i] && sides[..i + 1][..i] == sides[..i];
  }

  /** The split column's loop. */
  method CheckSplit(classify: Classifier, values: seq<string>) returns (fault: Option<IngestionError>)
    ensures fault == SplitFault(SidesOf(classify, Given(values)))
  {
    ghost var sides := SidesOf(classify, Given(values));
    var training, evaluation := 0, 0;
    for i := 0 to |values|
      invariant Unknown !in sides[..i]
      invariant training == |Keep(sides[..i], sides[..i], Training)|
      invariant evaluation == |Keep(sides[..i], sides[..i], Evaluation)|
    {
      KeepNext(sides, sides, i, Training);
      KeepNext(sides, sides, i, Evaluation);
      assert sides[..i + 1] == sides[..i] + [sides[i]];
      var side := classify(Some(values[i]));
      assert side == sides[i];
      if side == Training {
        training := training + 1;
      } else if side == Evaluation {
        evaluation := evaluation + 1;
      } else {
        return Some(BadSplitValue);
      }
    }
    assert sides[..|values|] == sides;
    if training < 2 || evaluation < 2 { return Some(SmallSplit); }
    return None;
  }

  lemma DistributionNext(values: seq<string>, value: string)
    ensures
      var counts := Distribution(values);
      Distribution(values + [value]) == counts[value := (if value in counts then counts[value] else 0) + 1]
  {
  }

  /** The target distribution: how often each present value occurs. */
  method CountTargets(values: seq<string>) returns (distribution: map<string, nat>)
    ensures distribution == Distribution(values)
  {
    distribution := map[];
    for i := 0 to |values|
      invariant distribution == Distribution(values[..i])
    {
      var value := values[i];
      var count := if value in distribution then distribution[value] else 0;
      distribution := distribution[value := count + 1];
      DistributionNext(values[..i], value);
      assert values[..i + 1] == values[..i] + [value];
    }
    assert values[..|values|] == values;
  }

  method TrainingReadiness(py: Python, names: seq<string>, values: seq<seq<string>>, columns: seq<Column>,
                           target: Option<string>, split: Option<string>) returns (readiness: Readiness)
    requires |names| == |values| == |columns| && (target.Some? ==> target.value in names)
    ensures readiness == ReadinessOf(py, names, values, columns, target, split)
  {
    var targets := TargetValues(names, values, target);
    var distribution := CountTargets(targets);
    readiness := Assess(names, columns, target, split, |targets|, distribution, AnyPositive(py, targets));
  }

  lemma ParseRowsNext(py: Python, header: seq<string>, rows: seq<seq<string>>, features: seq<string>,
                      target: string, split: Option<string>, i: nat)
    requires i < |rows|
    ensures
      var before := ParseRows(py, header, rows[..i], features, target, split);
      var row := ParseRow(py, header, rows[i], features, target, split);
      && (row.None? ==> ParseRows(py, header, rows, features, target, split).None?)
      && (before.Some? && row.Some? ==>
            ParseRows(py, header, rows[..i + 1], features, target, split) == Some(before.value + [row.value]))
  {
    assert rows[..i + 1][..i] == rows[..i] && rows[..i + 1][i] == rows[i];
  }

  /** The snapshot's parsing loop. */
  method ParseAll(py: Python, header: seq<string>, rows: seq<seq<string>>, features: seq<string>,
                  target: string, split: Option<string>) returns (parsed: Option<seq<Parsed>>)
    ensures parsed == ParseRows(py, header, rows, features, target, split)
  {
    var done: seq<Parsed> := [];
    var i := 0;
    while i < |rows|
      invariant i <= |rows|
      invariant ParseRows(py, header, rows[..i], features, target, split) == Some(done)
    {
      ParseRowsNext(py, header, rows, features, target, split, i);
      var row := ParseRow(py, header, rows[i], features, target, split);
      if row.None? {
        return None;
      }
      done := done + [row.value];
      i := i + 1;
    }
    assert rows[..|rows|] == rows;
    return Some(done);
  }

  /** The explicit split's loop: rows go to their side in order. */
  method DivideExplicit(classify: Classifier, parsed: seq<Parsed>)
    returns (result: Result<(seq<Parsed>, seq<Parsed>), IngestionError>)
    ensures forall fraction :: result == Divide(parsed, Some(SidesOf(classify, Splits(parsed))), fraction)
  {
    ghost var sides := SidesOf(classify, Splits(parsed));
    var training: seq<Parsed>, evaluation: seq<Parsed> := [], [];
    for i := 0 to |parsed|
      invariant Unknown !in sides[..i]
      invariant training == Keep(parsed[..i], sides[..i], Training)
      invariant evaluation == Keep(parsed[..i], sides[..i], Evaluation)
    {
      KeepNext(parsed, sides, i, Training);
      KeepNext(parsed, sides, i, Evaluation);
      assert sides[..i + 1] == sides[..i] + [sides[i]];
      var side := classify(parsed[i].split);
      assert side == sides[i];
      if side == Training {
        training := training + [parsed[i]];
      } else if side == Evaluation {
        evaluation := evaluation + [parsed[i]];
      } else {
        return Err(BadSplitValue);
      }
    }
    assert sides[..|parsed|] == sides && parsed[..|parsed|] == parsed;
    if |training| < 2 || |evaluation| < 2 { return Err(SmallSplit); }
    return Ok((training, evaluation));
  }

  /** The whole first pass. */
  method IngestCsv(py: Python, limits: Limits, header: seq<string>, rows: seq<seq<string>>,
                   target: Option<string>, split: Option<string>) returns (result: Result<Schema, IngestionError>)
    ensures result == Ingest(py, limits, header, rows, target, split)
  {
    var names := StripAll(header);
    var fault := HeaderFault(py, limits, names);
    if fault.Some? { return Err(fault.value); }
    var read := ReadColumns(py, limits, |names|, rows);
    if read.Err? { return Err(read.error); }
    var values := read.value;
    if |rows| < 4 { return Err(TooFewRows); }
    if exists j | 0 <= j < |values| :: Present(values[j]) == [] { return Err(EmptyColumn); }
    if !ValidConfiguration(names, target, split) { return Err(InvalidConfiguration); }
    if split.Some? {
      var splitFault := CheckSplit(SplitClassifier(py), values[IndexOf(names, split.value)]);
      if splitFault.Some? { return Err(splitFault.value); }
    }
    var columns := InferColumns(py, names, values);
    var readiness := TrainingReadiness(py, names, values, columns, target, split);
    return Ok(Schema(columns, target, split, readiness, |rows|));
  }

  /** The whole second pass. */
  method TabularTrainingSnapshot(py: Python, header: seq<string>, rows: seq<seq<string>>, names: seq<string>,
                                 target: Option<string>, split: Option<string>, fraction: real)
    returns (result: Result<Snapshot, IngestionError>)
    ensures result == TrainingSnapshot(py, header, rows, names, target, split, fraction)
  {
    if target.None? { return Err(NoTarget); }
    if target.value !in names { return Err(InvalidSchema); }
    var features := FeatureNames(names, target, split);
    if features == [] { return Err(NoFeatureColumns); }
    var parsed := ParseAll(py, header, DataRows(rows), features, target.value, split);
    if parsed.None? { return Err(NotNumeric); }
    var divided: Result<(seq<Parsed>, seq<Parsed>), IngestionError>;
    if split.Some? {
      divided := DivideExplicit(SplitClassifier(py), parsed.value);
    } else {
      var boundary := |parsed.value| - EvaluationRows(|parsed.value|, fraction);
      if boundary < 2 { return Err(TooSmallForSplit); }
      divided := Ok((parsed.value[..boundary], parsed.value[boundary..]));
    }
    if divided.Err? { return Err(divided.error); }
    var (training, evaluation) := divided.value;
    return Ok(Snapshot(Features(training), Targets(training), Features(evaluation), Targets(evaluation)));
  }
}
