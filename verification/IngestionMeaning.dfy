/**
 What ingestion accepts, infers and reports, stated on the cells themselves
 rather than on the passes that compute it.
 */
module IngestionMeaning {
  import opened Common
  import opened Text
  import opened Ingestion
  import opened IngestionTheorems
  import opened SnapshotContents

  // ---------------------------------------------------------------- one cell

  predicate NamesTraining(py: Python, cell: string) {
    py.casefold(Strip(cell)) in {"train", "training"}
  }

  predicate NamesEvaluation(py: Python, cell: string) {
    py.casefold(Strip(cell)) in {"eval", "evaluation", "test", "validation"}
  }

  lemma SideMeaning(py: Python, cell: string)
    ensures SideOf(py, Some(cell)) == Training <==> NamesTraining(py, cell)
    ensures SideOf(py, Some(cell)) == Evaluation <==> NamesEvaluation(py, cell)
    ensures SideOf(py, None) == SideOf(py, Some(""))
  {
    assert "train" != "eval" && "train"[0] != "eval"[0] && "training"[0] != "validation"[0];
    assert "train"[1] != "test"[1] && "training"[1] != "test"[1];
  }

  /** A cell that is neither too long nor unsafe nor the start of a formula. */
  predicate CellAcceptable(py: Python, limits: Limits, raw: string) {
    var cell := Strip(raw);
    && |cell| <= limits.maximumCell && py.safeText(cell)
    && (cell != "" ==> cell[0] != '=' && cell[0] != '+' && cell[0] != '@'
                       && (cell[0] == '-' ==> py.parseFloat(cell).Finite?))
  }

  lemma CellMeaning(py: Python, limits: Limits, raw: string)
    ensures
      var cell, fault := Strip(raw), CellFault(py, limits, raw);
      && (fault.None? <==> CellAcceptable(py, limits, raw))
      && (fault == Some(OversizedValue) <==> |cell| > limits.maximumCell)
      && (fault == Some(UnsafeValue) <==> |cell| <= limits.maximumCell && !py.safeText(cell))
      && (fault.Some? ==> fault.value in {OversizedValue, UnsafeValue, FormulaValue})
  {
  }

  /** The type of a column by its cells that are not blank. */
  lemma TypeMeaning(py: Python, values: seq<string>)
    ensures
      var dataType := InferType(py, values);
      var some := exists v | v in values :: v != "";
      var booleans := forall v | v in values && v != "" :: py.casefold(v) in {"true", "false"};
      var integers := forall v | v in values && v != "" ::
                        py.intText(v) == Some(v) || (py.intText(v).Some? && v[0] == '+');
      var floats := forall v | v in values && v != "" :: py.parseFloat(v).Finite?;
      && (dataType == BooleanType <==> some && booleans)
      && (dataType == IntegerType <==> some && !booleans && integers)
      && (dataType == FloatType <==> some && !booleans && !integers && floats)
  {
    PresentMeaning(values);
    var present := Present(values);
    assert present != [] <==> exists v | v in values :: v != "" by {
      if present != [] { assert present[0] in present; }
    }
  }

  // --------------------------------------------------------------- the header

  lemma HeaderMeaning(py: Python, limits: Limits, names: seq<string>)
    ensures
      var fault := HeaderFault(py, limits, names);
      var blank := names == [] || exists i | 0 <= i < |names| :: names[i] == "";
      var many := |names| > limits.maximumColumns;
      var repeated := exists i, j | 0 <= i < j < |names| :: py.casefold(names[i]) == py.casefold(names[j]);
      var long := exists i | 0 <= i < |names| :: |names[i]| > 128;
      var unsafe := exists i | 0 <= i < |names| :: !py.safeLine(names[i]);
      && (fault == Some(EmptyName) <==> blank)
      && (fault == Some(TooManyColumns) <==> !blank && many)
      && (fault == Some(DuplicateNames) <==> !blank && !many && repeated)
      && (fault == Some(LongName) <==> !blank && !many && !repeated && long)
      && (fault == Some(UnsafeName) <==> !blank && !many && !repeated && !long && unsafe)
      && (fault == None <==> !blank && !many && !repeated && !long && !unsafe)
  {
  }

  // ----------------------------------------------------------------- the rows

  /** A row that is not one too many, has the header's width and only acceptable cells. */
  predicate RowAcceptable(py: Python, limits: Limits, width: nat, row: seq<string>, i: nat) {
    i < limits.maximumRows && |row| == width && forall k | 0 <= k < |row| :: CellAcceptable(py, limits, row[k])
  }

  /** The fault of a row is its count, then its width, then its first bad cell. */
  ghost predicate FaultOfRow(py: Python, limits: Limits, width: nat, row: seq<string>, i: nat, e: IngestionError) {
    if i >= limits.maximumRows then e == TooManyRows
    else if |row| != width then e == WidthMismatch
    else
      exists k: nat :: k < |row| && CellFault(py, limits, row[k]) == Some(e)
                       && forall j | 0 <= j < k :: CellAcceptable(py, limits, row[j])
  }

  lemma {:induction false} FirstBadCell(py: Python, limits: Limits, row: seq<string>, k: nat)
    requires k <= |row| && forall j | 0 <= j < k :: CellAcceptable(py, limits, row[j])
    ensures CellsFault(py, limits, row, k).None? <==> forall j | 0 <= j < |row| :: CellAcceptable(py, limits, row[j])
    ensures CellsFault(py, limits, row, k).Some? ==>
              exists at: nat :: at < |row| && CellFault(py, limits, row[at]) == CellsFault(py, limits, row, k)
                                && forall j | 0 <= j < at :: CellAcceptable(py, limits, row[j])
    decreases |row| - k
  {
    if k < |row| {
      CellMeaning(py, limits, row[k]);
      if CellFault(py, limits, row[k]).None? {
        FirstBadCell(py, limits, row, k + 1);
      }
    }
  }

  lemma RowMeaning(py: Python, limits: Limits, width: nat, row: seq<string>, i: nat)
    ensures RowFault(py, limits, width, row, i).None? <==> RowAcceptable(py, limits, width, row, i)
    ensures RowFault(py, limits, width, row, i).Some? ==>
              FaultOfRow(py, limits, width, row, i, RowFault(py, limits, width, row, i).value)
  {
    FirstBadCell(py, limits, row, 0);
  }

  predicate RowsAcceptable(py: Python, limits: Limits, width: nat, rows: seq<seq<string>>) {
    forall i | 0 <= i < |rows| :: RowAcceptable(py, limits, width, rows[i], i)
  }

  /** The reported fault is that of the first row that is not acceptable. */
  lemma {:induction false} FirstBadRow(py: Python, limits: Limits, width: nat, rows: seq<seq<string>>, i: nat)
    requires i <= |rows| && forall k | 0 <= k < i :: RowAcceptable(py, limits, width, rows[k], k)
    ensures RowsFault(py, limits, width, rows, i).None? <==> RowsAcceptable(py, limits, width, rows)
    ensures RowsFault(py, limits, width, rows, i).Some? ==>
              exists at: nat :: at < |rows| && !RowAcceptable(py, limits, width, rows[at], at)
                                && FaultOfRow(py, limits, width, rows[at], at, RowsFault(py, limits, width, rows, i).value)
                                && forall k | 0 <= k < at :: RowAcceptable(py, limits, width, rows[k], k)
    decreases |rows| - i
  {
    if i < |rows| {
      RowMeaning(py, limits, width, rows[i], i);
      if RowFault(py, limits, width, rows[i], i).None? {
        FirstBadRow(py, limits, width, rows, i + 1);
      }
    }
  }

  // ---------------------------------------------------------------- the split

  /** Two different rows answer the question. */
  ghost predicate AtLeastTwo(answers: seq<bool>) {
    exists i, j | 0 <= i < j < |answers| :: answers[i] && answers[j]
  }

  function Answers(py: Python, cells: seq<string>, training: bool): (answers: seq<bool>)
    ensures |answers| == |cells|
    ensures forall i | 0 <= i < |cells| ::
              answers[i] <==> if training then NamesTraining(py, cells[i]) else NamesEvaluation(py, cells[i])
  {
    seq(|cells|, i requires 0 <= i < |cells| =>
          if training then NamesTraining(py, cells[i]) else NamesEvaluation(py, cells[i]))
  }

  lemma TwoKept(sides: seq<Side>, side: Side, answers: seq<bool>)
    requires |answers| == |sides| && forall i | 0 <= i < |sides| :: answers[i] <==> sides[i] == side
    ensures |Keep(sides, sides, side)| >= 2 <==> AtLeastTwo(answers)
  {
    KeepAtPlaces(sides, sides, side);
    var places := Places(sides, side);
    if |places| >= 2 {
      assert answers[places[0]] && answers[places[1]];
    }
    if AtLeastTwo(answers) {
      var i, j :| 0 <= i < j < |answers| && answers[i] && answers[j];
      assert i in places && j in places;
    }
  }

  /** What the split column must hold. */
  ghost predicate SplitAcceptable(py: Python, cells: seq<string>) {
    && (forall i | 0 <= i < |cells| :: NamesTraining(py, cells[i]) || NamesEvaluation(py, cells[i]))
    && AtLeastTwo(Answers(py, cells, true)) && AtLeastTwo(Answers(py, cells, false))
  }

  lemma SplitMeaning(py: Python, cells: seq<string>)
    ensures
      var fault := SplitFault(SidesOf(SplitClassifier(py), Given(cells)));
      && (fault.None? <==> SplitAcceptable(py, cells))
      && (fault == Some(BadSplitValue) <==>
            exists i | 0 <= i < |cells| :: !NamesTraining(py, cells[i]) && !NamesEvaluation(py, cells[i]))
      && (fault.Some? ==> fault.value in {BadSplitValue, SmallSplit})
  {
    var sides := SidesOf(SplitClassifier(py), Given(cells));
    forall i | 0 <= i < |cells|
      ensures sides[i] == Training <==> NamesTraining(py, cells[i])
      ensures sides[i] == Evaluation <==> NamesEvaluation(py, cells[i])
    {
      SideMeaning(py, cells[i]);
    }
    TwoKept(sides, Training, Answers(py, cells, true));
    TwoKept(sides, Evaluation, Answers(py, cells, false));
    assert forall i | 0 <= i < |cells| :: sides[i] in sides;
  }

  // ------------------------------------------------------------- the decision

  predicate HeaderAcceptable(py: Python, limits: Limits, names: seq<string>) {
    && 1 <= |names| <= limits.maximumColumns
    && (forall i | 0 <= i < |names| :: 1 <= |names[i]| <= 128 && py.safeLine(names[i]))
    && (forall i, j | 0 <= i < j < |names| :: py.casefold(names[i]) != py.casefold(names[j]))
  }

  /** The roles name two different columns. */
  predicate RolesAcceptable(names: seq<string>, target: Option<string>, split: Option<string>) {
    && |names| <= 256
    && (target.Some? ==> target.value in names)
    && (split.Some? ==> split.value in names)
    && (target.Some? && split.Some? ==> target.value != split.value)
  }

  predicate Filled(rows: seq<seq<string>>, i: nat, j: nat) {
    i < |rows| && j < |rows[i]| && Strip(rows[i][j]) != ""
  }

  ghost predicate ColumnFilled(rows: seq<seq<string>>, j: nat) {
    exists i: nat :: Filled(rows, i, j)
  }

  ghost predicate SplitColumnAcceptable(py: Python, header: seq<string>, rows: seq<seq<string>>, split: Option<string>)
    requires AllWide(rows, |header|)
  {
    forall j | 0 <= j < |header| && Some(Strip(header[j])) == split ::
      SplitAcceptable(py, ColumnValues(rows, |header|, j))
  }

  /** Everything an uploaded table has to satisfy, on its raw header and cells. */
  ghost predicate Acceptable(py: Python, limits: Limits, header: seq<string>, rows: seq<seq<string>>,
                             target: Option<string>, split: Option<string>)
  {
    && HeaderAcceptable(py, limits, StripAll(header))
    && 4 <= |rows| && RowsAcceptable(py, limits, |header|, rows)
    && (forall j | 0 <= j < |header| :: ColumnFilled(rows, j))
    && RolesAcceptable(StripAll(header), target, split)
    && AllWide(rows, |header|) && SplitColumnAcceptable(py, header, rows, split)
  }

  lemma BlankColumn(rows: seq<seq<string>>, width: nat, j: nat)
    requires AllWide(rows, width) && j < width
    ensures Present(ColumnValues(rows, width, j)) != [] <==> ColumnFilled(rows, j)
  {
    var values := ColumnValues(rows, width, j);
    PresentMeaning(values);
    if Present(values) != [] {
      assert Present(values)[0] in Present(values);
      var i :| 0 <= i < |values| && values[i] == Present(values)[0];
      assert Filled(rows, i, j);
    }
    if ColumnFilled(rows, j) {
      var i: nat :| Filled(rows, i, j);
      assert values[i] in values;
    }
  }

  lemma RolesMeaning(py: Python, limits: Limits, names: seq<string>, target: Option<string>, split: Option<string>)
    requires HeaderAcceptable(py, limits, names)
    ensures ValidConfiguration(names, target, split) <==> RolesAcceptable(names, target, split)
  {
  }

  lemma ConcludeMeaning(py: Python, names: seq<string>, values: seq<seq<string>>, rowCount: nat,
                        target: Option<string>, split: Option<string>)
    requires |names| == |values|
    ensures Conclude(py, names, values, rowCount, target, split).Ok? <==>
              && rowCount >= 4 && (forall j | 0 <= j < |values| :: Present(values[j]) != [])
              && ValidConfiguration(names, target, split)
              && (split.Some? ==>
                    SplitFault(SidesOf(SplitClassifier(py), Given(values[IndexOf(names, split.value)]))).None?)
  {
  }

  lemma HeaderDecides(py: Python, limits: Limits, names: seq<string>)
    ensures HeaderFault(py, limits, names).None? <==> HeaderAcceptable(py, limits, names)
  {
    HeaderMeaning(py, limits, names);
  }

  lemma SplitColumnDecides(py: Python, header: seq<string>, rows: seq<seq<string>>, split: string)
    requires Distinct(py, StripAll(header)) && AllWide(rows, |header|) && split in StripAll(header)
    ensures SplitColumnAcceptable(py, header, rows, Some(split)) <==>
              SplitFault(SidesOf(SplitClassifier(py),
                                 Given(Transpose(rows, |header|)[IndexOf(StripAll(header), split)]))).None?
  {
    SplitMeaning(py, ColumnValues(rows, |header|, IndexOf(StripAll(header), split)));
    SplitColumnOnly(py, header, split);
  }

  lemma ReadTableDecides(py: Python, limits: Limits, header: seq<string>, rows: seq<seq<string>>,
                         target: Option<string>, split: Option<string>)
    requires HeaderAcceptable(py, limits, StripAll(header)) && AllWide(rows, |header|)
    ensures Conclude(py, StripAll(header), Transpose(rows, |header|), |rows|, target, split).Ok? <==>
              && 4 <= |rows| && (forall j | 0 <= j < |header| :: ColumnFilled(rows, j))
              && RolesAcceptable(StripAll(header), target, split)
              && SplitColumnAcceptable(py, header, rows, split)
  {
    var names, values := StripAll(header), Transpose(rows, |header|);
    forall j | 0 <= j < |header| ensures Present(values[j]) != [] <==> ColumnFilled(rows, j) {
      BlankColumn(rows, |header|, j);
    }
    RolesMeaning(py, limits, names, target, split);
    ConcludeMeaning(py, names, values, |rows|, target, split);
    if split.Some? && split.value in names {
      SplitColumnDecides(py, header, rows, split.value);
    }
  }

  /** The first pass accepts exactly the acceptable tables. */
  lemma AcceptedExactly(py: Python, limits: Limits, header: seq<string>, rows: seq<seq<string>>,
                        target: Option<string>, split: Option<string>)
    ensures Ingest(py, limits, header, rows, target, split).Ok? <==> Acceptable(py, limits, header, rows, target, split)
  {
    HeaderDecides(py, limits, StripAll(header));
    FirstBadRow(py, limits, |header|, rows, 0);
    if HeaderAcceptable(py, limits, StripAll(header)) && RowsAcceptable(py, limits, |header|, rows) {
      assert AllWide(rows, |header|);
      ReadTableDecides(py, limits, header, rows, target, split);
    }
  }

  /** Among distinct names only one column has the split's. */
  lemma SplitColumnOnly(py: Python, header: seq<string>, split: string)
    requires Distinct(py, StripAll(header)) && split in StripAll(header)
    ensures forall j | 0 <= j < |header| :: Strip(header[j]) == split <==> j == IndexOf(StripAll(header), split)
  {
    forall j | 0 <= j < |header| && StripAll(header)[j] == split ensures j == IndexOf(StripAll(header), split) {
      IndexOfOnly(py, StripAll(header), j);
    }
  }

  lemma ConcludeRejects(py: Python, names: seq<string>, values: seq<seq<string>>, rowCount: nat,
                        target: Option<string>, split: Option<string>)
    requires |names| == |values|
    ensures
      var result := Conclude(py, names, values, rowCount, target, split);
      var filled := forall j | 0 <= j < |values| :: Present(values[j]) != [];
      var roles := ValidConfiguration(names, target, split);
      && (result == Err(TooFewRows) <==> rowCount < 4)
      && (result == Err(EmptyColumn) <==> rowCount >= 4 && !filled)
      && (result == Err(InvalidConfiguration) <==> rowCount >= 4 && filled && !roles)
      && (result.Err? && rowCount >= 4 && filled && roles ==>
            split.Some? && result.error in {BadSplitValue, SmallSplit})
  {
    if split.Some? && split.value in names {
      SplitMeaning(py, values[IndexOf(names, split.value)]);
    }
  }

  lemma ReadTableRejects(py: Python, limits: Limits, header: seq<string>, rows: seq<seq<string>>,
                         target: Option<string>, split: Option<string>)
    requires HeaderAcceptable(py, limits, StripAll(header)) && AllWide(rows, |header|)
    ensures
      var result := Conclude(py, StripAll(header), Transpose(rows, |header|), |rows|, target, split);
      var filled := forall j | 0 <= j < |header| :: ColumnFilled(rows, j);
      var roles := RolesAcceptable(StripAll(header), target, split);
      && (result == Err(TooFewRows) <==> |rows| < 4)
      && (result == Err(EmptyColumn) <==> |rows| >= 4 && !filled)
      && (result == Err(InvalidConfiguration) <==> |rows| >= 4 && filled && !roles)
      && (result.Err? && |rows| >= 4 && filled && roles ==>
            split.Some? && result.error in {BadSplitValue, SmallSplit})
  {
    var names, values := StripAll(header), Transpose(rows, |header|);
    forall j | 0 <= j < |header| ensures Present(values[j]) != [] <==> ColumnFilled(rows, j) {
      BlankColumn(rows, |header|, j);
    }
    RolesMeaning(py, limits, names, target, split);
    ConcludeRejects(py, names, values, |rows|, target, split);
  }

  /** Faults are reported in order: the header's, that of the first bad row, too
      few rows, a blank column, the roles, the split column. */
  lemma RejectedInOrder(py: Python, limits: Limits, header: seq<string>, rows: seq<seq<string>>,
                        target: Option<string>, split: Option<string>)
    requires Ingest(py, limits, header, rows, target, split).Err?
    ensures
      var e := Ingest(py, limits, header, rows, target, split).error;
      if !HeaderAcceptable(py, limits, StripAll(header)) then
        HeaderFault(py, limits, StripAll(header)) == Some(e)
      else if !RowsAcceptable(py, limits, |header|, rows) then
        exists at: nat :: at < |rows| && !RowAcceptable(py, limits, |header|, rows[at], at)
                          && FaultOfRow(py, limits, |header|, rows[at], at, e)
                          && forall k | 0 <= k < at :: RowAcceptable(py, limits, |header|, rows[k], k)
      else if |rows| < 4 then e == TooFewRows
      else if exists j | 0 <= j < |header| :: !ColumnFilled(rows, j) then e == EmptyColumn
      else if !RolesAcceptable(StripAll(header), target, split) then e == InvalidConfiguration
      else split.Some? && e in {BadSplitValue, SmallSplit}
  {
    HeaderDecides(py, limits, StripAll(header));
    FirstBadRow(py, limits, |header|, rows, 0);
    if HeaderAcceptable(py, limits, StripAll(header)) && RowsAcceptable(py, limits, |header|, rows) {
      assert AllWide(rows, |header|);
      ReadTableRejects(py, limits, header, rows, target, split);
    }
  }

  // -------------------------------------------------------------- the schema

  lemma InferredColumn(py: Python, header: seq<string>, rows: seq<seq<string>>, j: nat)
    requires AllWide(rows, |header|) && j < |header|
    ensures Describes(py, InferColumns(py, StripAll(header), Transpose(rows, |header|))[j], header[j],
                      ColumnValues(rows, |header|, j))
  {
  }

  /** What is recorded about a column: its stripped name, the type of its cells
      and whether one of them is blank. */
  lemma SchemaMeaning(py: Python, limits: Limits, header: seq<string>, rows: seq<seq<string>>,
                      target: Option<string>, split: Option<string>)
    requires Ingest(py, limits, header, rows, target, split).Ok?
    ensures AllWide(rows, |header|)
    ensures
      var schema := Ingest(py, limits, header, rows, target, split).value;
      && schema.rowCount == |rows| && schema.target == target && schema.split == split
      && |schema.columns| == |header|
      && forall j | 0 <= j < |header| :: Describes(py, schema.columns[j], header[j], ColumnValues(rows, |header|, j))
  {
    AcceptedFacts(py, limits, header, rows, target, split);
    forall j | 0 <= j < |header|
      ensures Describes(py, InferColumns(py, StripAll(header), Transpose(rows, |header|))[j], header[j],
                        ColumnValues(rows, |header|, j))
    {
      InferredColumn(py, header, rows, j);
    }
  }

  predicate Describes(py: Python, column: Column, name: string, cells: seq<string>) {
    && column.name == Strip(name) && column.dataType == InferType(py, cells)
    && (column.nullable <==> exists i | 0 <= i < |cells| :: cells[i] == "")
  }

  // ----------------------------------------------------------- the readiness

  /** The picked names stand in the order of the table. */
  predicate InOrder(names: seq<string>, picked: seq<string>) {
    (forall f | f in picked :: f in names)
    && forall a, b | 0 <= a < b < |picked| :: picked[a] in names && picked[b] in names
                                              && IndexOf(names, picked[a]) < IndexOf(names, picked[b])
  }

  predicate NoRepeats(names: seq<string>) {
    forall i, j | 0 <= i < j < |names| :: names[i] != names[j]
  }

  lemma {:induction false} FeaturesInOrder(names: seq<string>, target: Option<string>, split: Option<string>)
    requires NoRepeats(names)
    ensures InOrder(names, FeatureNames(names, target, split))
    decreases |names|
  {
    if names != [] {
      var rest := FeatureNames(names[1..], target, split);
      FeaturesInOrder(names[1..], target, split);
      forall f | f in rest ensures f in names && f != names[0] && IndexOf(names, f) == 1 + IndexOf(names[1..], f) {
        var j :| 0 <= j < |names[1..]| && names[1..][j] == f;
        assert names[j + 1] == f;
      }
      assert forall a | 0 <= a < |rest| :: rest[a] in rest;
    }
  }

  lemma InOrderTail(names: seq<string>, picked: seq<string>)
    requires InOrder(names, picked) && picked != []
    ensures InOrder(names, picked[1..]) && picked[0] in names
    ensures forall f | f in picked[1..] :: f in names && IndexOf(names, picked[0]) < IndexOf(names, f)
  {
    assert forall a | 0 <= a < |picked[1..]| :: picked[1..][a] == picked[a + 1];
    assert picked[0] in picked;
  }

  lemma InOrderPrepend(names: seq<string>, first: string, picked: seq<string>)
    requires InOrder(names, picked) && first in names
    requires forall f | f in picked :: f in names && IndexOf(names, first) < IndexOf(names, f)
    ensures InOrder(names, [first] + picked)
  {
    assert forall a | 0 <= a < |picked| :: picked[a] in picked;
  }

  lemma {:induction false} PickedInOrder(names: seq<string>, columns: seq<Column>, features: seq<string>, numeric: bool)
    requires |columns| == |names| && InOrder(names, features)
    ensures InOrder(names, WithType(names, columns, features, numeric))
    decreases |features|
  {
    if features != [] {
      InOrderTail(names, features);
      PickedInOrder(names, columns, features[1..], numeric);
      InOrderPrepend(names, features[0], WithType(names, columns, features[1..], numeric));
    }
  }

  /** How many cells of the column hold the value. */
  function Occurrences(cells: seq<string>, value: string): set<nat> {
    set i: nat | i < |cells| && cells[i] == value
  }

  lemma {:induction false} PresentOccurrences(cells: seq<string>, value: string)
    requires value != ""
    ensures multiset(Present(cells))[value] == multiset(cells)[value]
    decreases |cells|
  {
    if cells != [] {
      PresentOccurrences(cells[1..], value);
      assert cells == [cells[0]] + cells[1..];
    }
  }

  lemma {:induction false} OccurrenceCount(cells: seq<string>, value: string)
    ensures multiset(cells)[value] == |Occurrences(cells, value)|
    decreases |cells|
  {
    if cells != [] {
      var n := |cells| - 1;
      OccurrenceCount(cells[..n], value);
      assert cells == cells[..n] + [cells[n]];
      assert Occurrences(cells, value)
             == if cells[n] == value then Occurrences(cells[..n], value) + {n} else Occurrences(cells[..n], value);
    }
  }

  /** The values of the target cells that are not blank. */
  function TargetClasses(cells: seq<string>): set<string> {
    set v | v in cells && v != ""
  }

  lemma DistributionMeaning(cells: seq<string>)
    ensures
      var distribution := Distribution(Present(cells));
      && distribution.Keys == TargetClasses(cells) && |distribution| == |TargetClasses(cells)|
      && forall v | v in distribution :: distribution[v] == |Occurrences(cells, v)|
  {
    PresentMeaning(cells);
    var distribution := Distribution(Present(cells));
    assert distribution.Keys == TargetClasses(cells);
    assert |distribution| == |distribution.Keys|;
    forall v | v in distribution ensures distribution[v] == |Occurrences(cells, v)| {
      PresentOccurrences(cells, v);
      OccurrenceCount(cells, v);
    }
  }

  lemma {:induction false} PresentSize(cells: seq<string>)
    ensures |Present(cells)| == |NonBlank(cells)|
    decreases |cells|
  {
    PresentAppend(cells);
    if cells != [] {
      var n := |cells| - 1;
      PresentSize(cells[..n]);
      assert NonBlank(cells) == if cells[n] == "" then NonBlank(cells[..n]) else NonBlank(cells[..n]) + {n};
    }
  }

  lemma {:induction false} PresentAppend(cells: seq<string>)
    ensures cells != [] ==>
              var n := |cells| - 1;
              Present(cells) == Present(cells[..n]) + if cells[n] == "" then [] else [cells[n]]
    decreases |cells|
  {
    if |cells| > 1 {
      PresentAppend(cells[1..]);
      var n := |cells| - 1;
      assert cells[1..][..n - 1] == cells[..n][1..];
    }
  }

  /** The rows whose target cell is not blank. */
  function NonBlank(cells: seq<string>): set<nat> {
    set i: nat | i < |cells| && cells[i] != ""
  }

  lemma NoFeaturesMeaning(names: seq<string>, target: string, split: Option<string>)
    ensures FeatureNames(names, Some(target), split) == [] <==> forall f | f in names :: f == target || Some(f) == split
  {
    var features := FeatureNames(names, Some(target), split);
    if features != [] { assert features[0] in features; }
  }

  lemma BlockersMeaning(target: bool, numericTarget: bool, features: bool, nonNumeric: bool)
    ensures
      var blockers := Blockers(target, numericTarget, features, nonNumeric);
      && (blockers == [] <==> target && numericTarget && features && !nonNumeric)
      && forall b :: b in blockers <==>
           || (b == NoTargetChosen && !target) || (b == NoFeatures && !features)
           || (b == NonNumericFeatures && nonNumeric) || (b == NonNumericTarget && target && !numericTarget)
  {
  }

  lemma WarningsMeaning(target: bool, numericTarget: bool, distinct: nat, present: nat, anyPositive: bool)
    ensures forall w :: w in Warnings(target, numericTarget, distinct, present, anyPositive) <==>
              || (w == SingleTargetValue && target && distinct < 2)
              || (w == NoPositiveTarget && numericTarget && present > 0 && !anyPositive)
  {
  }

  lemma FewClassesMeaning(distinct: nat, present: nat)
    ensures FewClasses(distinct, present) <==> 2 <= distinct <= 20 && (distinct == 2 || distinct <= present / 2)
  {
  }

  /** How the report follows from the features, the target's type and its classes. */
  ghost predicate Assessed(names: seq<string>, columns: seq<Column>, target: string, split: Option<string>,
                           present: nat, distribution: map<string, nat>, anyPositive: bool, report: Readiness)
    requires |names| == |columns| && target in names
  {
    var features, dataType := FeatureNames(names, Some(target), split), TypeOf(names, columns, target);
    && report.numericFeatures == WithType(names, columns, features, true)
    && report.nonNumericFeatures == WithType(names, columns, features, false)
    && report.targetType == Some(dataType) && report.distinctTargets == |distribution|
    && report.classDistribution == (if |distribution| <= 20 then distribution else map[])
    && report.blockers == Blockers(true, Numeric(dataType), features != [], report.nonNumericFeatures != [])
    && (report.ready <==> report.blockers == [] && |distribution| >= 2)
    && (report.regressionCandidate <==> report.ready)
    && (report.classificationCandidate <==>
          report.blockers == [] && dataType == IntegerType && FewClasses(|distribution|, present))
    && report.warnings == Warnings(true, Numeric(dataType), |distribution|, present, anyPositive)
  }

  lemma AssessMeaning(names: seq<string>, columns: seq<Column>, target: string, split: Option<string>,
                      present: nat, distribution: map<string, nat>, anyPositive: bool)
    requires |names| == |columns| && target in names
    ensures Assessed(names, columns, target, split, present, distribution, anyPositive,
                     Assess(names, columns, Some(target), split, present, distribution, anyPositive))
  {
    var features := FeatureNames(names, Some(target), split);
    PickedExactly(names, columns, features);
    BlockersMeaning(true, Numeric(TypeOf(names, columns, target)), features != [],
                    WithType(names, columns, features, false) != []);
  }

  /** A column without a role, of a numeric or of another type. */
  predicate FeatureOfType(names: seq<string>, columns: seq<Column>, target: string, split: Option<string>,
                          f: string, numeric: bool)
    requires |names| == |columns|
  {
    && f in names && f != target && Some(f) != split
    && TypeOf(names, columns, f) in (if numeric then {IntegerType, FloatType} else {StringType, BooleanType})
  }

  lemma PickedFeatures(names: seq<string>, columns: seq<Column>, target: string, split: Option<string>, numeric: bool)
    requires |names| == |columns| && NoRepeats(names)
    ensures
      var picked := WithType(names, columns, FeatureNames(names, Some(target), split), numeric);
      && InOrder(names, picked)
      && forall f :: f in picked <==> FeatureOfType(names, columns, target, split, f, numeric)
  {
    var features := FeatureNames(names, Some(target), split);
    FeaturesInOrder(names, Some(target), split);
    PickedInOrder(names, columns, features, numeric);
    forall f ensures f in WithType(names, columns, features, numeric) <==> FeatureOfType(names, columns, target, split, f, numeric) {
      if f in names { NumericMeaning(TypeOf(names, columns, f)); }
    }
  }

  lemma NumericMeaning(dataType: ColumnType)
    ensures Numeric(dataType) <==> dataType in {IntegerType, FloatType}
    ensures !Numeric(dataType) <==> dataType in {StringType, BooleanType}
  {
  }

  /** The report's features: all columns without a role, in table order, by type. */
  ghost predicate FeaturesReported(names: seq<string>, columns: seq<Column>, target: string, split: Option<string>,
                                   report: Readiness)
    requires |names| == |columns|
  {
    && InOrder(names, report.numericFeatures) && InOrder(names, report.nonNumericFeatures)
    && (forall f :: f in report.numericFeatures <==> FeatureOfType(names, columns, target, split, f, true))
    && (forall f :: f in report.nonNumericFeatures <==> FeatureOfType(names, columns, target, split, f, false))
  }

  /** The target's classes with their counts, or no counts if there are too many. */
  ghost predicate ClassesReported(cells: seq<string>, dataType: ColumnType, report: Readiness) {
    var classes := TargetClasses(cells);
    && report.targetType == Some(dataType) && report.distinctTargets == |classes|
    && report.classDistribution.Keys == (if |classes| <= 20 then classes else {})
    && forall v | v in report.classDistribution :: report.classDistribution[v] == |Occurrences(cells, v)|
  }

  ghost predicate BlockersReported(names: seq<string>, dataType: ColumnType, target: string, split: Option<string>,
                                   report: Readiness)
  {
    forall b :: b in report.blockers <==>
      || (b == NoFeatures && forall f | f in names :: f == target || Some(f) == split)
      || (b == NonNumericFeatures && report.nonNumericFeatures != [])
      || (b == NonNumericTarget && dataType in {StringType, BooleanType})
  }

  ghost predicate VerdictsReported(cells: seq<string>, dataType: ColumnType, report: Readiness) {
    var classes := |TargetClasses(cells)|;
    && (report.ready <==> report.blockers == [] && classes >= 2)
    && report.regressionCandidate == report.ready
    && (report.classificationCandidate <==>
          report.blockers == [] && dataType == IntegerType
          && 2 <= classes <= 20 && (classes == 2 || classes <= |NonBlank(cells)| / 2))
  }

  ghost predicate WarningsReported(py: Python, cells: seq<string>, dataType: ColumnType, report: Readiness) {
    forall w :: w in report.warnings <==>
      || (w == SingleTargetValue && |TargetClasses(cells)| < 2)
      || (w == NoPositiveTarget && dataType in {IntegerType, FloatType} && |NonBlank(cells)| > 0
          && forall v | v in cells && v != "" ::
               match py.parseFloat(v)
               case Finite(x) => x <= 0.0
               case NonFinite(positiveInfinity) => !positiveInfinity
               case NotANumber => true)
  }

  lemma BlockersFromParts(names: seq<string>, dataType: ColumnType, target: string, split: Option<string>,
                          report: Readiness)
    requires report.blockers == Blockers(true, Numeric(dataType), FeatureNames(names, Some(target), split) != [],
                                         report.nonNumericFeatures != [])
    ensures BlockersReported(names, dataType, target, split, report)
  {
    NoFeaturesMeaning(names, target, split);
    BlockersMeaning(true, Numeric(dataType), FeatureNames(names, Some(target), split) != [],
                    report.nonNumericFeatures != []);
  }

  lemma WarningsFromParts(py: Python, cells: seq<string>, dataType: ColumnType, report: Readiness)
    requires report.warnings == Warnings(true, Numeric(dataType), |TargetClasses(cells)|, |NonBlank(cells)|,
                                         AnyPositive(py, Present(cells)))
    ensures WarningsReported(py, cells, dataType, report)
  {
    PresentMeaning(cells);
    WarningsMeaning(true, Numeric(dataType), |TargetClasses(cells)|, |NonBlank(cells)|, AnyPositive(py, Present(cells)));
  }

  lemma TargetFromParts(py: Python, names: seq<string>, cells: seq<string>, columns: seq<Column>, target: string,
                        split: Option<string>, report: Readiness)
    requires |names| == |columns| && target in names
    requires Assessed(names, columns, target, split, |Present(cells)|, Distribution(Present(cells)),
                      AnyPositive(py, Present(cells)), report)
    ensures
      var dataType := TypeOf(names, columns, target);
      && ClassesReported(cells, dataType, report) && BlockersReported(names, dataType, target, split, report)
      && VerdictsReported(cells, dataType, report) && WarningsReported(py, cells, dataType, report)
  {
    DistributionMeaning(cells);
    PresentSize(cells);
    FewClassesMeaning(|TargetClasses(cells)|, |NonBlank(cells)|);
    BlockersFromParts(names, TypeOf(names, columns, target), target, split, report);
    WarningsFromParts(py, cells, TypeOf(names, columns, target), report);
  }

  lemma FeaturesFromParts(names: seq<string>, columns: seq<Column>, target: string, split: Option<string>,
                          report: Readiness)
    requires |names| == |columns| && NoRepeats(names)
    requires report.numericFeatures == WithType(names, columns, FeatureNames(names, Some(target), split), true)
    requires report.nonNumericFeatures == WithType(names, columns, FeatureNames(names, Some(target), split), false)
    ensures FeaturesReported(names, columns, target, split, report)
  {
    PickedFeatures(names, columns, target, split, true);
    PickedFeatures(names, columns, target, split, false);
  }

  /** The readiness report, entry by entry, on the columns and the target's cells. */
  lemma ReadinessMeaning(py: Python, names: seq<string>, values: seq<seq<string>>, columns: seq<Column>,
                         target: string, split: Option<string>)
    requires |names| == |values| == |columns| && NoRepeats(names) && target in names
    ensures
      var report := ReadinessOf(py, names, values, columns, Some(target), split);
      var cells, dataType := values[IndexOf(names, target)], TypeOf(names, columns, target);
      && FeaturesReported(names, columns, target, split, report)
      && ClassesReported(cells, dataType, report) && BlockersReported(names, dataType, target, split, report)
      && VerdictsReported(cells, dataType, report) && WarningsReported(py, cells, dataType, report)
  {
    var cells := values[IndexOf(names, target)];
    var targets := Present(cells);
    var report := Assess(names, columns, Some(target), split, |targets|, Distribution(targets), AnyPositive(py, targets));
    AssessMeaning(names, columns, target, split, |targets|, Distribution(targets), AnyPositive(py, targets));
    FeaturesFromParts(names, columns, target, split, report);
    TargetFromParts(py, names, cells, columns, target, split, report);
  }

  /** Without a target nothing is ready, and the report says so first. */
  lemma NoTargetMeaning(py: Python, names: seq<string>, values: seq<seq<string>>, columns: seq<Column>,
                        split: Option<string>)
    requires |names| == |values| == |columns|
    ensures
      var report := ReadinessOf(py, names, values, columns, None, split);
      && NoTargetChosen in report.blockers && NonNumericTarget !in report.blockers
      && !report.ready && !report.classificationCandidate && !report.regressionCandidate
      && report.targetType == None && report.distinctTargets == 0 && report.warnings == []
  {
  }
}
