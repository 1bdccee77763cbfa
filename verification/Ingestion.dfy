/**
 CSV ingestion and the training snapshot taken later from the same rows: two
 separate passes over a parsed header and parsed rows.
 */
module Ingestion {
  import opened Common
  import opened Text

  /** What `float(text)` gives: nothing, an infinity or a NaN, or a finite double. */
  datatype Number = NotANumber | NonFinite(positiveInfinity: bool) | Finite(value: real)

  /** The library calls both passes make. */
  datatype Python = Python(
    intText: string -> Option<string>,   // str(int(value)), None for its ValueError
    parseFloat: string -> Number,        // float(value)
    casefold: string -> string,
    safeLine: string -> bool,
    safeText: string -> bool)

  datatype Limits = Limits(maximumRows: nat, maximumColumns: nat, maximumCell: nat)

  datatype ColumnType = IntegerType | FloatType | StringType | BooleanType

  datatype Column = Column(name: string, dataType: ColumnType, nullable: bool)

  datatype Warning = SingleTargetValue | NoPositiveTarget

  datatype Blocker = NoTargetChosen | NoFeatures | NonNumericFeatures | NonNumericTarget

  datatype Readiness = Readiness(
    numericFeatures: seq<string>,
    nonNumericFeatures: seq<string>,
    targetType: Option<ColumnType>,
    distinctTargets: nat,
    classDistribution: map<string, nat>,
    blockers: seq<Blocker>,
    classificationCandidate: bool,
    regressionCandidate: bool,
    ready: bool,
    warnings: seq<Warning>)

  datatype Schema = Schema(
    columns: seq<Column>,
    target: Option<string>,
    split: Option<string>,
    readiness: Readiness,
    rowCount: nat)

  datatype IngestionError =
    | EmptyName | TooManyColumns | DuplicateNames | LongName | UnsafeName
    | TooManyRows | WidthMismatch | OversizedValue | UnsafeValue | FormulaValue
    | TooFewRows | EmptyColumn | InvalidConfiguration | BadSplitValue | SmallSplit
    | NoTarget | InvalidSchema | NoFeatureColumns | NotNumeric | TooSmallForSplit

  // ------------------------------------------------------------ the header

  function StripAll(values: seq<string>): (r: seq<string>)
    ensures |r| == |values| && forall i | 0 <= i < |r| :: r[i] == Strip(values[i])
  {
    seq(|values|, i requires 0 <= i < |values| => Strip(values[i]))
  }

  predicate Distinct(py: Python, names: seq<string>) {
    forall i, j | 0 <= i < j < |names| :: py.casefold(names[i]) != py.casefold(names[j])
  }

  function HeaderFault(py: Python, limits: Limits, names: seq<string>): Option<IngestionError> {
    if names == [] || "" in names then Some(EmptyName)
    else if |names| > limits.maximumColumns then Some(TooManyColumns)
    else if !Distinct(py, names) then Some(DuplicateNames)
    else if exists i | 0 <= i < |names| :: |names[i]| > 128 then Some(LongName)
    else if exists i | 0 <= i < |names| :: !py.safeLine(names[i]) then Some(UnsafeName)
    else None
  }

  // -------------------------------------------------------------- the cells

  predicate LooksExecutable(py: Python, value: string) {
    value != ""
    && (value[0] in "=+@" || (value[0] == '-' && !py.parseFloat(value).Finite?))
  }

  function CellFault(py: Python, limits: Limits, raw: string): Option<IngestionError> {
    var value := Strip(raw);
    if |value| > limits.maximumCell then Some(OversizedValue)
    else if !py.safeText(value) then Some(UnsafeValue)
    else if LooksExecutable(py, value) then Some(FormulaValue)
    else None
  }

  /** The first fault in a row's cells from `k` on. */
  function CellsFault(py: Python, limits: Limits, row: seq<string>, k: nat): Option<IngestionError>
    requires k <= |row|
    decreases |row| - k
  {
    if k == |row| then None
    else
      match CellFault(py, limits, row[k])
      case Some(e) => Some(e)
      case None => CellsFault(py, limits, row, k + 1)
  }

  function RowFault(py: Python, limits: Limits, width: nat, row: seq<string>, i: nat): Option<IngestionError> {
    if i + 1 > limits.maximumRows then Some(TooManyRows)
    else if |row| != width then Some(WidthMismatch)
    else CellsFault(py, limits, row, 0)
  }

  /** The first fault in the rows from `i` on. */
  function RowsFault(py: Python, limits: Limits, width: nat, rows: seq<seq<string>>, i: nat): (fault: Option<IngestionError>)
    requires i <= |rows|
    ensures fault.None? ==> forall k | i <= k < |rows| :: |rows[k]| == width
    decreases |rows| - i
  {
    if i == |rows| then None
    else
      match RowFault(py, limits, width, rows[i], i)
      case Some(e) => Some(e)
      case None => RowsFault(py, limits, width, rows, i + 1)
  }

  predicate AllWide(rows: seq<seq<string>>, width: nat) {
    forall i | 0 <= i < |rows| :: |rows[i]| == width
  }

  function ColumnValues(rows: seq<seq<string>>, width: nat, j: nat): (values: seq<string>)
    requires AllWide(rows, width) && j < width
    ensures |values| == |rows| && forall i | 0 <= i < |rows| :: values[i] == Strip(rows[i][j])
  {
    seq(|rows|, i requires 0 <= i < |rows| => Strip(rows[i][j]))
  }

  /** The stripped cells, column by column. */
  predicate Transposed(rows: seq<seq<string>>, width: nat, columns: seq<seq<string>>)
    requires AllWide(rows, width)
  {
    |columns| == width && forall j | 0 <= j < width :: columns[j] == ColumnValues(rows, width, j)
  }

  function Transpose(rows: seq<seq<string>>, width: nat): (columns: seq<seq<string>>)
    requires AllWide(rows, width)
    ensures Transposed(rows, width, columns)
  {
    seq(width, j requires 0 <= j < width => ColumnValues(rows, width, j))
  }

  // -------------------------------------------------------------- inference

  function Present(values: seq<string>): seq<string> {
    if values == [] then []
    else (if values[0] == "" then [] else [values[0]]) + Present(values[1..])
  }

  predicate BooleanText(py: Python, value: string) {
    py.casefold(value) == "true" || py.casefold(value) == "false"
  }

  predicate IntegerText(py: Python, value: string) {
    py.intText(value).Some? && (py.intText(value).value == value || (value != "" && value[0] == '+'))
  }

  function InferType(py: Python, values: seq<string>): ColumnType {
    var present := Present(values);
    if present != [] && forall v | v in present :: BooleanText(py, v) then BooleanType
    else if present != [] && forall v | v in present :: IntegerText(py, v) then IntegerType
    else if present != [] && forall v | v in present :: py.parseFloat(v).Finite? then FloatType
    else StringType
  }

  function InferColumns(py: Python, names: seq<string>, values: seq<seq<string>>): (columns: seq<Column>)
    requires |names| == |values|
    ensures |columns| == |names|
    ensures forall j | 0 <= j < |names| ::
              columns[j] == Column(names[j], InferType(py, values[j]), "" in values[j])
  {
    seq(|names|, j requires 0 <= j < |names| => Column(names[j], InferType(py, values[j]), "" in values[j]))
  }

  // ------------------------------------------------------------------ splits

  datatype Side = Training | Evaluation | Unknown

  function SideOf(py: Python, value: Option<string>): Side {
    var text := py.casefold(Strip(if value.Some? then value.value else ""));
    if text == "train" || text == "training" then Training
    else if text == "eval" || text == "evaluation" || text == "test" || text == "validation" then Evaluation
    else Unknown
  }

  type Classifier = Option<string> -> Side

  function SplitClassifier(py: Python): Classifier {
    value => SideOf(py, value)
  }

  /** The side each value of the split column names. */
  function SidesOf(classify: Classifier, values: seq<Option<string>>): (sides: seq<Side>)
    ensures |sides| == |values| && forall i | 0 <= i < |values| :: sides[i] == classify(values[i])
  {
    seq(|values|, i requires 0 <= i < |values| => classify(values[i]))
  }

  function Given(values: seq<string>): (given: seq<Option<string>>)
    ensures |given| == |values| && forall i | 0 <= i < |values| :: given[i] == Some(values[i])
  {
    seq(|values|, i requires 0 <= i < |values| => Some(values[i]))
  }

  /** The items whose side is the given one, in order. */
  function Keep<T>(items: seq<T>, sides: seq<Side>, side: Side): seq<T>
    requires |items| == |sides|
    decreases |items|
  {
    if items == [] then []
    else
      var n := |items| - 1;
      Keep(items[..n], sides[..n], side) + if sides[n] == side then [items[n]] else []
  }

  function SplitFault(sides: seq<Side>): Option<IngestionError> {
    if Unknown in sides then Some(BadSplitValue)
    else if |Keep(sides, sides, Training)| < 2 || |Keep(sides, sides, Evaluation)| < 2 then Some(SmallSplit)
    else None
  }

  // --------------------------------------------------------------- readiness

  function IndexOf(names: seq<string>, name: string): (i: nat)
    requires name in names
    ensures i < |names| && names[i] == name
  {
    if names[0] == name then 0 else 1 + IndexOf(names[1..], name)
  }

  predicate IsFeature(name: string, target: Option<string>, split: Option<string>) {
    Some(name) != target && Some(name) != split
  }

  /** The names that are neither target nor split column, in order. */
  function FeatureNames(names: seq<string>, target: Option<string>, split: Option<string>): (features: seq<string>)
    ensures forall name :: name in features <==> name in names && IsFeature(name, target, split)
  {
    if names == [] then []
    else
      (if IsFeature(names[0], target, split) then [names[0]] else []) + FeatureNames(names[1..], target, split)
  }

  predicate Numeric(dataType: ColumnType) {
    dataType.IntegerType? || dataType.FloatType?
  }

  function TypeOf(names: seq<string>, columns: seq<Column>, name: string): ColumnType
    requires name in names && |columns| == |names|
  {
    columns[IndexOf(names, name)].dataType
  }

  function WithType(names: seq<string>, columns: seq<Column>, features: seq<string>, numeric: bool): (picked: seq<string>)
    requires |columns| == |names| && forall f | f in features :: f in names
    ensures forall f :: f in picked <==> f in features && f in names && Numeric(TypeOf(names, columns, f)) == numeric
  {
    if features == [] then []
    else
      (if Numeric(TypeOf(names, columns, features[0])) == numeric then [features[0]] else [])
      + WithType(names, columns, features[1..], numeric)
  }

  function Distribution(values: seq<string>): map<string, nat> {
    map v | v in values :: multiset(values)[v]
  }

  /** The present values of the target column. */
  function TargetValues(names: seq<string>, values: seq<seq<string>>, target: Option<string>): seq<string>
    requires |names| == |values| && (target.Some? ==> target.value in names)
  {
    if target.Some? then Present(values[IndexOf(names, target.value)]) else []
  }

  predicate Positive(number: Number) {
    (number.Finite? && number.value > 0.0) || (number.NonFinite? && number.positiveInfinity)
  }

  predicate AnyPositive(py: Python, targets: seq<string>) {
    exists v | v in targets :: Positive(py.parseFloat(v))
  }

  function Blockers(target: bool, numericTarget: bool, features: bool, nonNumeric: bool): seq<Blocker> {
    (if !target then [NoTargetChosen] else [])
    + (if !features then [NoFeatures] else [])
    + (if nonNumeric then [NonNumericFeatures] else [])
    + (if target && !numericTarget then [NonNumericTarget] else [])
  }

  function Warnings(target: bool, numericTarget: bool, distinct: nat, presentTargets: nat, anyPositive: bool): seq<Warning> {
    (if target && distinct < 2 then [SingleTargetValue] else [])
    + (if numericTarget && presentTargets > 0 && !anyPositive then [NoPositiveTarget] else [])
  }

  /** `2 <= distinct <= min(20, max(2, present // 2))`. */
  predicate FewClasses(distinct: nat, presentTargets: nat) {
    var half := if presentTargets / 2 > 2 then presentTargets / 2 else 2;
    2 <= distinct <= (if half < 20 then half else 20)
  }

  function Assess(names: seq<string>, columns: seq<Column>, target: Option<string>, split: Option<string>,
                  presentTargets: nat, distribution: map<string, nat>, anyPositive: bool): Readiness
    requires |names| == |columns| && (target.Some? ==> target.value in names)
  {
    var features := FeatureNames(names, target, split);
    var numeric := WithType(names, columns, features, true);
    var nonNumeric := WithType(names, columns, features, false);
    var targetType := if target.Some? then Some(TypeOf(names, columns, target.value)) else None;
    var distinct := |distribution|;
    var numericTarget := targetType.Some? && Numeric(targetType.value);
    var blockers := Blockers(target.Some?, numericTarget, features != [], nonNumeric != []);
    var common := blockers == [] && numericTarget && numeric != [];
    Readiness(
      numeric, nonNumeric, targetType, distinct,
      if distinct <= 20 then distribution else map[],
      blockers,
      common && targetType == Some(IntegerType) && FewClasses(distinct, presentTargets),
      common && distinct >= 2,
      common && distinct >= 2,
      Warnings(target.Some?, numericTarget, distinct, presentTargets, anyPositive))
  }

  function ReadinessOf(py: Python, names: seq<string>, values: seq<seq<string>>, columns: seq<Column>,
                       target: Option<string>, split: Option<string>): Readiness
    requires |names| == |values| == |columns|
    requires target.Some? ==> target.value in names
  {
    var targets := TargetValues(names, values, target);
    Assess(names, columns, target, split, |targets|, Distribution(targets), AnyPositive(py, targets))
  }

  // ----------------------------------------------------------- the first pass

  predicate ValidConfiguration(names: seq<string>, target: Option<string>, split: Option<string>) {
    && 1 <= |names| <= 256
    && (target.Some? ==> target.value in names && 1 <= |target.value| <= 128)
    && (split.Some? ==> split.value in names && 1 <= |split.value| <= 128)
    && (target.Some? ==> target != split)
  }

  /** What the cells decide once all rows have been read. */
  function Conclude(py: Python, names: seq<string>, values: seq<seq<string>>, rowCount: nat,
                    target: Option<string>, split: Option<string>): Result<Schema, IngestionError>
    requires |names| == |values|
  {
    if rowCount < 4 then Err(TooFewRows)
    else if exists j | 0 <= j < |values| :: Present(values[j]) == [] then Err(EmptyColumn)
    else if !ValidConfiguration(names, target, split) then Err(InvalidConfiguration)
    else
      var fault := if split.Some? then SplitFault(SidesOf(SplitClassifier(py), Given(values[IndexOf(names, split.value)]))) else None;
      if fault.Some? then Err(fault.value)
      else
        var columns := InferColumns(py, names, values);
        Ok(Schema(columns, target, split, ReadinessOf(py, names, values, columns, target, split), rowCount))
  }

  function Ingest(py: Python, limits: Limits, header: seq<string>, rows: seq<seq<string>>,
                  target: Option<string>, split: Option<string>): Result<Schema, IngestionError>
  {
    var names := StripAll(header);
    match HeaderFault(py, limits, names)
    case Some(e) => Err(e)
    case None =>
      match RowsFault(py, limits, |names|, rows, 0)
      case Some(e) => Err(e)
      case None => Conclude(py, names, Transpose(rows, |names|), |rows|, target, split)
  }

  // ---------------------------------------------------------- the second pass

  datatype Parsed = Parsed(features: seq<real>, target: real, split: Option<string>)

  datatype Snapshot = Snapshot(
    trainingX: seq<seq<real>>, trainingY: seq<real>,
    evaluationX: seq<seq<real>>, evaluationY: seq<real>)

  /** `DictReader` drops blank lines. */
  function DataRows(rows: seq<seq<string>>): seq<seq<string>> {
    if rows == [] then []
    else
      var n := |rows| - 1;
      if rows[n] == [] then DataRows(rows[..n]) else DataRows(rows[..n]) + [rows[n]]
  }

  /** `row.get(name)`: the cell under the last raw header that is the name. */
  function Lookup(header: seq<string>, row: seq<string>, name: string): Option<string>
    decreases |header|
  {
    if header == [] then None
    else
      var k := |header| - 1;
      if header[k] == name then (if k < |row| then Some(row[k]) else None)
      else Lookup(header[..k], row, name)
  }

  function FiniteNumber(py: Python, value: Option<string>): Option<real> {
    if value.None? || Strip(value.value) == "" then None
    else
      match py.parseFloat(Strip(value.value))
      case Finite(r) => Some(r)
      case _ => None
  }

  function ParseFeatures(py: Python, header: seq<string>, row: seq<string>, features: seq<string>): (r: Option<seq<real>>)
    ensures r.Some? ==> |r.value| == |features|
    ensures r.Some? <==> forall k | 0 <= k < |features| :: FiniteNumber(py, Lookup(header, row, features[k])).Some?
  {
    if features == [] then Some([])
    else
      assert forall k | 1 <= k < |features| :: features[k] == features[1..][k - 1];
      match FiniteNumber(py, Lookup(header, row, features[0]))
      case None => None
      case Some(x) =>
        match ParseFeatures(py, header, row, features[1..])
        case None => None
        case Some(rest) => Some([x] + rest)
  }

  function ParseRow(py: Python, header: seq<string>, row: seq<string>, features: seq<string>,
                    target: string, split: Option<string>): (r: Option<Parsed>)
    ensures r.Some? ==> |r.value.features| == |features|
  {
    match (ParseFeatures(py, header, row, features), FiniteNumber(py, Lookup(header, row, target)))
    case (Some(xs), Some(y)) =>
      Some(Parsed(xs, y, if split.Some? && split.value != "" then Lookup(header, row, split.value) else None))
    case _ => None
  }

  function ParseRows(py: Python, header: seq<string>, rows: seq<seq<string>>, features: seq<string>,
                     target: string, split: Option<string>): (r: Option<seq<Parsed>>)
    ensures r.Some? ==> |r.value| == |rows|
    ensures r.Some? ==> forall i | 0 <= i < |rows| ::
              Some(r.value[i]) == ParseRow(py, header, rows[i], features, target, split)
    ensures r.Some? <==> forall i | 0 <= i < |rows| :: ParseRow(py, header, rows[i], features, target, split).Some?
    decreases |rows|
  {
    if rows == [] then Some([])
    else
      var n := |rows| - 1;
      match (ParseRows(py, header, rows[..n], features, target, split),
             ParseRow(py, header, rows[n], features, target, split))
      case (Some(before), Some(last)) => Some(before + [last])
      case _ => None
  }

  function Splits(parsed: seq<Parsed>): (splits: seq<Option<string>>)
    ensures |splits| == |parsed| && forall i | 0 <= i < |splits| :: splits[i] == parsed[i].split
  {
    seq(|parsed|, i requires 0 <= i < |parsed| => parsed[i].split)
  }

  function Features(parsed: seq<Parsed>): (xs: seq<seq<real>>)
    ensures |xs| == |parsed| && forall i | 0 <= i < |xs| :: xs[i] == parsed[i].features
  {
    seq(|parsed|, i requires 0 <= i < |parsed| => parsed[i].features)
  }

  function Targets(parsed: seq<Parsed>): (ys: seq<real>)
    ensures |ys| == |parsed| && forall i | 0 <= i < |ys| :: ys[i] == parsed[i].target
  {
    seq(|parsed|, i requires 0 <= i < |parsed| => parsed[i].target)
  }

  /** Python's `round`: to the nearest whole number, halves to the even one. */
  function RoundHalfEven(x: real): int {
    var below := x.Floor;
    var rest := x - below as real;
    if rest < 0.5 then below
    else if rest > 0.5 then below + 1
    else if below % 2 == 0 then below else below + 1
  }

  function Share(n: nat, fraction: real): real {
    n as real * fraction
  }

  function EvaluationRows(n: nat, fraction: real): int {
    var rounded := RoundHalfEven(Share(n, fraction));
    if rounded > 2 then rounded else 2
  }

  /** The training and the evaluation rows: by side if there is a split column,
      otherwise the last rows are for evaluation. */
  function Divide(parsed: seq<Parsed>, sides: Option<seq<Side>>, fraction: real)
    : Result<(seq<Parsed>, seq<Parsed>), IngestionError>
    requires sides.Some? ==> |sides.value| == |parsed|
  {
    if sides.Some? then
      if Unknown in sides.value then Err(BadSplitValue)
      else
        var training, evaluation := Keep(parsed, sides.value, Training), Keep(parsed, sides.value, Evaluation);
        if |training| < 2 || |evaluation| < 2 then Err(SmallSplit) else Ok((training, evaluation))
    else
      var boundary := |parsed| - EvaluationRows(|parsed|, fraction);
      if boundary < 2 then Err(TooSmallForSplit) else Ok((parsed[..boundary], parsed[boundary..]))
  }

  function SidesFor(classify: Classifier, parsed: seq<Parsed>, split: Option<string>): (sides: Option<seq<Side>>)
    ensures sides.Some? <==> split.Some?
    ensures sides.Some? ==> sides.value == SidesOf(classify, Splits(parsed))
  {
    if split.Some? then Some(SidesOf(classify, Splits(parsed))) else None
  }

  function TrainingSnapshot(py: Python, header: seq<string>, rows: seq<seq<string>>, names: seq<string>,
                            target: Option<string>, split: Option<string>, fraction: real)
    : Result<Snapshot, IngestionError>
  {
    if target.None? then Err(NoTarget)
    else if target.value !in names then Err(InvalidSchema)
    else
      var features := FeatureNames(names, target, split);
      if features == [] then Err(NoFeatureColumns)
      else
        match ParseRows(py, header, DataRows(rows), features, target.value, split)
        case None => Err(NotNumeric)
        case Some(parsed) =>
          match Divide(parsed, SidesFor(SplitClassifier(py), parsed, split), fraction)
          case Err(e) => Err(e)
          case Ok((training, evaluation)) =>
            Ok(Snapshot(Features(training), Targets(training), Features(evaluation), Targets(evaluation)))
  }
}
