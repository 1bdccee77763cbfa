/** The two passes agree, and the split they end in is exact. */
module IngestionTheorems {
  import opened Common
  import opened Text
  import opened Ingestion

  // --------------------------------------------------------------- rounding

  /** Half-to-even rounding: never more than a half away, ties to even numbers. */
  lemma RoundMeaning(x: real)
    ensures
      var r := RoundHalfEven(x);
      && r as real - 0.5 <= x <= r as real + 0.5
      && (x == r as real + 0.5 || x == r as real - 0.5 ==> r % 2 == 0)
  {
  }

  /** With the fraction in its allowed range, at least two evaluation rows are
      taken, and two training rows are left exactly when there are four rows. */
  lemma FractionPathExactly(n: nat, fraction: real)
    requires 0.1 <= fraction <= 0.4
    ensures EvaluationRows(n, fraction) >= 2
    ensures n - EvaluationRows(n, fraction) >= 2 <==> n >= 4
  {
    ShareBound(n as real, fraction);
    RowsLeft(n, Share(n, fraction));
  }

  lemma RowsLeft(n: nat, share: real)
    requires share <= 0.4 * n as real
    ensures n >= 4 ==> n - RoundHalfEven(share) >= 2
  {
    RoundMeaning(share);
    var rounded := RoundHalfEven(share);
    assert (n - rounded) as real == n as real - rounded as real;
  }

  lemma ShareBound(total: real, fraction: real)
    requires fraction <= 0.4 && total >= 0.0
    ensures total * fraction <= 0.4 * total
  {
    assert total * (0.4 - fraction) >= 0.0;
  }

  // ------------------------------------------------------------ the partition

  predicate Subsequence<T(==)>(a: seq<T>, b: seq<T>)
    decreases |b|
  {
    if a == [] then true
    else if b == [] then false
    else if a[|a| - 1] == b[|b| - 1] && Subsequence(a[..|a| - 1], b[..|b| - 1]) then true
    else Subsequence(a, b[..|b| - 1])
  }

  lemma {:induction false} KeepSubsequence<T>(items: seq<T>, sides: seq<Side>, side: Side)
    requires |items| == |sides|
    ensures Subsequence(Keep(items, sides, side), items)
    decreases |items|
  {
    if items != [] {
      var n := |items| - 1;
      KeepSubsequence(items[..n], sides[..n], side);
      var kept := Keep(items, sides, side);
      if sides[n] == side {
        assert kept[..|kept| - 1] == Keep(items[..n], sides[..n], side);
      } else {
        assert kept == Keep(items[..n], sides[..n], side);
      }
    }
  }

  lemma KeepLast<T>(items: seq<T>, sides: seq<Side>, side: Side)
    requires |items| == |sides| > 0
    ensures
      var n := |items| - 1;
      multiset(Keep(items, sides, side))
      == multiset(Keep(items[..n], sides[..n], side)) + if sides[n] == side then multiset{items[n]} else multiset{}
  {
  }

  lemma LastApart<T>(items: seq<T>)
    requires items != []
    ensures multiset(items) == multiset(items[..|items| - 1]) + multiset{items[|items| - 1]}
  {
    assert items == items[..|items| - 1] + [items[|items| - 1]];
  }

  lemma OneMore<T>(a: multiset<T>, b: multiset<T>, x: T)
    ensures (a + multiset{x}) + b == (a + b) + multiset{x} == a + (b + multiset{x})
  {
  }

  lemma {:induction false} KeepPartition<T>(items: seq<T>, sides: seq<Side>)
    requires |items| == |sides| && Unknown !in sides
    ensures multiset(Keep(items, sides, Training)) + multiset(Keep(items, sides, Evaluation)) == multiset(items)
    decreases |items|
  {
    if items != [] {
      var n := |items| - 1;
      var training, evaluation := Keep(items[..n], sides[..n], Training), Keep(items[..n], sides[..n], Evaluation);
      KeepPartition(items[..n], sides[..n]);
      KeepLast(items, sides, Training);
      KeepLast(items, sides, Evaluation);
      LastApart(items);
      OneMore(multiset(training), multiset(evaluation), items[n]);
      assert sides[n] != Unknown;
    }
  }

  /** How many items a side keeps depends on the sides alone. */
  lemma {:induction false} KeepCount<S, T>(a: seq<S>, b: seq<T>, sides: seq<Side>, side: Side)
    requires |a| == |b| == |sides|
    ensures |Keep(a, sides, side)| == |Keep(b, sides, side)|
    decreases |sides|
  {
    if sides != [] {
      var n := |sides| - 1;
      KeepCount(a[..n], b[..n], sides[..n], side);
    }
  }

  lemma {:induction false} PrefixSubsequence<T>(a: seq<T>, b: seq<T>)
    ensures Subsequence(a, a + b)
    decreases |b|, |a|
  {
    if b == [] {
      assert a + b == a;
      if a != [] {
        PrefixSubsequence(a[..|a| - 1], []);
        assert a[..|a| - 1] + [] == a[..|a| - 1];
      }
    } else {
      var n := |b| - 1;
      PrefixSubsequence(a, b[..n]);
      assert (a + b)[..|a + b| - 1] == a + b[..n];
    }
  }

  lemma {:induction false} SuffixSubsequence<T>(a: seq<T>, b: seq<T>)
    ensures Subsequence(b, a + b)
    decreases |b|
  {
    if b != [] {
      var n := |b| - 1;
      SuffixSubsequence(a, b[..n]);
      assert (a + b)[..|a + b| - 1] == a + b[..n];
    }
  }

  /** Every split that succeeds is an exact partition of the rows that keeps their
      order, with two rows or more on each side. */
  lemma DivisionIsPartition(parsed: seq<Parsed>, sides: Option<seq<Side>>, fraction: real)
    requires sides.Some? ==> |sides.value| == |parsed|
    requires Divide(parsed, sides, fraction).Ok?
    ensures
      var (training, evaluation) := Divide(parsed, sides, fraction).value;
      && multiset(training) + multiset(evaluation) == multiset(parsed)
      && Subsequence(training, parsed) && Subsequence(evaluation, parsed)
      && |training| >= 2 && |evaluation| >= 2
      && |training| + |evaluation| == |parsed|
      && (sides.None? ==> training + evaluation == parsed)
  {
    var (training, evaluation) := Divide(parsed, sides, fraction).value;
    if sides.Some? {
      KeepPartition(parsed, sides.value);
      KeepSubsequence(parsed, sides.value, Training);
      KeepSubsequence(parsed, sides.value, Evaluation);
      assert |multiset(training) + multiset(evaluation)| == |multiset(parsed)|;
    } else {
      assert parsed == training + evaluation;
      PrefixSubsequence(training, evaluation);
      SuffixSubsequence(training, evaluation);
    }
  }

  lemma ParsedWidths(py: Python, header: seq<string>, rows: seq<seq<string>>, features: seq<string>,
                     target: string, split: Option<string>)
    requires ParseRows(py, header, rows, features, target, split).Some?
    ensures forall p | p in ParseRows(py, header, rows, features, target, split).value :: |p.features| == |features|
  {
    var parsed := ParseRows(py, header, rows, features, target, split).value;
    forall p | p in parsed ensures |p.features| == |features| {
      var i :| 0 <= i < |parsed| && parsed[i] == p;
      assert Some(p) == ParseRow(py, header, rows[i], features, target, split);
    }
  }

  lemma SideShape(side: seq<Parsed>, parsed: seq<Parsed>, width: nat)
    requires forall i | 0 <= i < |side| :: side[i] in parsed
    requires forall p | p in parsed :: |p.features| == width
    ensures |Features(side)| == |Targets(side)| == |side|
    ensures forall i | 0 <= i < |side| :: |Features(side)[i]| == width
  {
  }

  /** Features and targets of a snapshot are aligned, all feature rows have one
      entry per feature column, and every data row is used once. */
  lemma SnapshotShape(py: Python, header: seq<string>, rows: seq<seq<string>>, names: seq<string>,
                      target: Option<string>, split: Option<string>, fraction: real)
    requires TrainingSnapshot(py, header, rows, names, target, split, fraction).Ok?
    ensures
      var s := TrainingSnapshot(py, header, rows, names, target, split, fraction).value;
      var width := |FeatureNames(names, target, split)|;
      && width > 0
      && |s.trainingX| == |s.trainingY| >= 2 && |s.evaluationX| == |s.evaluationY| >= 2
      && |s.trainingX| + |s.evaluationX| == |DataRows(rows)|
      && (forall i | 0 <= i < |s.trainingX| :: |s.trainingX[i]| == width)
      && (forall i | 0 <= i < |s.evaluationX| :: |s.evaluationX[i]| == width)
  {
    var features := FeatureNames(names, target, split);
    ParsedWidths(py, header, DataRows(rows), features, target.value, split);
    var parsed := ParseRows(py, header, DataRows(rows), features, target.value, split).value;
    var sides := SidesFor(SplitClassifier(py), parsed, split);
    DivisionIsPartition(parsed, sides, fraction);
    var (training, evaluation) := Divide(parsed, sides, fraction).value;
    AllKept(training, evaluation, parsed);
    SideShape(training, parsed, |features|);
    SideShape(evaluation, parsed, |features|);
  }

  lemma AllKept<T>(a: seq<T>, b: seq<T>, whole: seq<T>)
    requires multiset(a) + multiset(b) == multiset(whole)
    ensures forall i | 0 <= i < |a| :: a[i] in whole
    ensures forall i | 0 <= i < |b| :: b[i] in whole
  {
    forall i | 0 <= i < |a| ensures a[i] in whole {
      assert a[i] in multiset(a);
      assert a[i] in multiset(whole);
    }
    forall i | 0 <= i < |b| ensures b[i] in whole {
      assert b[i] in multiset(b);
      assert b[i] in multiset(whole);
    }
  }

  // ------------------------------------------------------- reading a cell back

  lemma {:induction false} LookupMissing(header: seq<string>, row: seq<string>, name: string)
    requires name !in header
    ensures Lookup(header, row, name).None?
    decreases |header|
  {
    if header != [] {
      LookupMissing(header[..|header| - 1], row, name);
    }
  }

  lemma {:induction false} LookupOnly(header: seq<string>, row: seq<string>, name: string, j: nat)
    requires j < |header| && |header| <= |row| && header[j] == name
    requires forall k | 0 <= k < |header| && header[k] == name :: k == j
    ensures Lookup(header, row, name) == Some(row[j])
    decreases |header|
  {
    if j < |header| - 1 {
      LookupOnly(header[..|header| - 1], row, name, j);
    }
  }

  /** The second pass finds a column's cell exactly if its raw header is unpadded. */
  lemma ColumnLookup(py: Python, header: seq<string>, row: seq<string>, j: nat)
    requires j < |header| && |row| == |header| && Distinct(py, StripAll(header))
    ensures Lookup(header, row, StripAll(header)[j])
            == if header[j] == StripAll(header)[j] then Some(row[j]) else None
  {
    var names := StripAll(header);
    var name := names[j];
    StripStrips(header[j]);
    StripFixes(name);
    forall k | 0 <= k < |header| && header[k] == name ensures k == j {
      assert names[k] == Strip(name) == names[j];
    }
    if header[j] == name {
      LookupOnly(header, row, name, j);
    } else {
      LookupMissing(header, row, name);
    }
  }

  lemma {:induction false} PresentMeaning(values: seq<string>)
    ensures forall v :: v in Present(values) <==> v in values && v != ""
    decreases |values|
  {
    if values != [] {
      PresentMeaning(values[1..]);
      assert values == [values[0]] + values[1..];
    }
  }

  predicate AllFinite(py: Python, values: seq<string>) {
    forall i | 0 <= i < |values| :: values[i] != "" && py.parseFloat(values[i]).Finite?
  }

  /** What a numeric column still needs for every cell of it to parse. */
  predicate ColumnServes(py: Python, column: Column, values: seq<string>) {
    && !column.nullable
    && (column.dataType.IntegerType? ==> forall v | v in values :: py.parseFloat(v).Finite?)
  }

  lemma NumericColumnParses(py: Python, name: string, values: seq<string>)
    requires Numeric(InferType(py, values))
    ensures AllFinite(py, values) <==> ColumnServes(py, Column(name, InferType(py, values), "" in values), values)
  {
    PresentMeaning(values);
    if "" !in values && InferType(py, values).FloatType? {
      forall i | 0 <= i < |values| ensures py.parseFloat(values[i]).Finite? {
        assert values[i] in Present(values);
      }
    }
    if AllFinite(py, values) {
      forall v | v in values ensures v != "" && py.parseFloat(v).Finite? {
        var i :| 0 <= i < |values| && values[i] == v;
      }
    }
  }

  // ----------------------------------------------------------- rows and columns

  /** Whether the second pass can read this column in every row. */
  ghost predicate ColumnReads(py: Python, header: seq<string>, rows: seq<seq<string>>, name: string) {
    forall i | 0 <= i < |rows| :: FiniteNumber(py, Lookup(header, rows[i], name)).Some?
  }

  lemma CellReadsExactly(py: Python, header: seq<string>, row: seq<string>, j: nat)
    requires j < |header| && |row| == |header| && Distinct(py, StripAll(header))
    ensures FiniteNumber(py, Lookup(header, row, StripAll(header)[j])).Some?
            <==> header[j] == StripAll(header)[j] && Strip(row[j]) != "" && py.parseFloat(Strip(row[j])).Finite?
  {
    ColumnLookup(py, header, row, j);
  }

  lemma ColumnReadsExactly(py: Python, header: seq<string>, rows: seq<seq<string>>, j: nat)
    requires j < |header| && AllWide(rows, |header|) && Distinct(py, StripAll(header)) && rows != []
    ensures ColumnReads(py, header, rows, StripAll(header)[j])
            <==> header[j] == StripAll(header)[j] && AllFinite(py, ColumnValues(rows, |header|, j))
  {
    var name, values := StripAll(header)[j], ColumnValues(rows, |header|, j);
    forall i | 0 <= i < |rows|
      ensures FiniteNumber(py, Lookup(header, rows[i], name)).Some?
              <==> header[j] == name && values[i] != "" && py.parseFloat(values[i]).Finite?
    {
      CellReadsExactly(py, header, rows[i], j);
    }
    if ColumnReads(py, header, rows, name) {
      assert FiniteNumber(py, Lookup(header, rows[0], name)).Some?;
    }
  }

  lemma RowsParseExactly(py: Python, header: seq<string>, rows: seq<seq<string>>, features: seq<string>,
                         target: string, split: Option<string>)
    ensures ParseRows(py, header, rows, features, target, split).Some?
            <==> ColumnReads(py, header, rows, target)
                 && forall f | f in features :: ColumnReads(py, header, rows, f)
  {
    if ColumnReads(py, header, rows, target) && forall f | f in features :: ColumnReads(py, header, rows, f) {
      forall i | 0 <= i < |rows| ensures ParseRow(py, header, rows[i], features, target, split).Some? {
        forall k | 0 <= k < |features| ensures FiniteNumber(py, Lookup(header, rows[i], features[k])).Some? {
          assert features[k] in features;
          assert ColumnReads(py, header, rows, features[k]);
        }
      }
    }
    if ParseRows(py, header, rows, features, target, split).Some? {
      forall i | 0 <= i < |rows|
        ensures FiniteNumber(py, Lookup(header, rows[i], target)).Some?
        ensures forall k | 0 <= k < |features| :: FiniteNumber(py, Lookup(header, rows[i], features[k])).Some?
      {
        assert ParseRow(py, header, rows[i], features, target, split).Some?;
      }
      forall f | f in features ensures ColumnReads(py, header, rows, f) {
        var k :| 0 <= k < |features| && features[k] == f;
      }
    }
  }

  lemma {:induction false} WideRowsKept(rows: seq<seq<string>>, width: nat)
    requires AllWide(rows, width) && width > 0
    ensures DataRows(rows) == rows
    decreases |rows|
  {
    if rows != [] {
      WideRowsKept(rows[..|rows| - 1], width);
    }
  }

  // ------------------------------------------------------------ the split column

  /** Padding does not change a side, and a missing value names none. */
  ghost predicate SplitLike(classify: Classifier) {
    classify(None) == Unknown && forall raw :: classify(Some(raw)) == classify(Some(Strip(raw)))
  }

  lemma StrippedSide(py: Python, raw: string)
    ensures SideOf(py, Some(raw)) == SideOf(py, Some(Strip(raw)))
  {
    StripStrips(raw);
    StripFixes(Strip(raw));
  }

  lemma SplitsAreSplitLike(py: Python)
    requires py.casefold("") == ""
    ensures SplitLike(SplitClassifier(py))
  {
    assert Strip("") == "";
    var classify := SplitClassifier(py);
    forall raw ensures classify(Some(raw)) == classify(Some(Strip(raw))) {
      StrippedSide(py, raw);
    }
  }

  /** The second pass reads the sides the first pass accepted exactly if it finds
      the split column. */
  lemma ReadSides(classify: Classifier, raws: seq<string>, values: seq<string>, splits: seq<Option<string>>, found: bool)
    requires |raws| == |values| == |splits| > 0 && classify(None) == Unknown
    requires forall i | 0 <= i < |raws| :: classify(Some(raws[i])) == classify(Some(values[i]))
    requires forall i | 0 <= i < |raws| :: splits[i] == if found then Some(raws[i]) else None
    ensures found ==> SidesOf(classify, splits) == SidesOf(classify, Given(values))
    ensures !found ==> Unknown in SidesOf(classify, splits)
  {
    assert SidesOf(classify, splits)[0] in SidesOf(classify, splits);
  }

  lemma ExplicitSplitExactly(classify: Classifier, parsed: seq<Parsed>, raws: seq<string>, values: seq<string>,
                             found: bool, fraction: real)
    requires |raws| == |values| == |parsed| > 0 && classify(None) == Unknown
    requires forall i | 0 <= i < |raws| :: classify(Some(raws[i])) == classify(Some(values[i]))
    requires forall i | 0 <= i < |raws| :: parsed[i].split == if found then Some(raws[i]) else None
    requires SplitFault(SidesOf(classify, Given(values))).None?
    ensures Divide(parsed, Some(SidesOf(classify, Splits(parsed))), fraction).Ok? <==> found
  {
    ReadSides(classify, raws, values, Splits(parsed), found);
    var sides := SidesOf(classify, Splits(parsed));
    KeepCount(parsed, sides, sides, Training);
    KeepCount(parsed, sides, sides, Evaluation);
  }

  function RawColumn(rows: seq<seq<string>>, width: nat, j: nat): (raws: seq<string>)
    requires AllWide(rows, width) && j < width
    ensures |raws| == |rows| && forall i | 0 <= i < |rows| :: raws[i] == rows[i][j]
  {
    seq(|rows|, i requires 0 <= i < |rows| => rows[i][j])
  }

  lemma SplitCells(py: Python, header: seq<string>, rows: seq<seq<string>>, parsed: seq<Parsed>,
                   features: seq<string>, target: string, j: nat, split: string)
    requires j < |header| && AllWide(rows, |header|) && Distinct(py, StripAll(header))
    requires split != "" && StripAll(header)[j] == split
    requires ParseRows(py, header, rows, features, target, Some(split)) == Some(parsed)
    ensures |parsed| == |rows|
    ensures forall i | 0 <= i < |rows| :: parsed[i].split == if header[j] == split then Some(rows[i][j]) else None
  {
    forall i | 0 <= i < |rows| ensures parsed[i].split == if header[j] == split then Some(rows[i][j]) else None {
      assert Some(parsed[i]) == ParseRow(py, header, rows[i], features, target, Some(split));
      ColumnLookup(py, header, rows[i], j);
    }
  }

  // ------------------------------------------------------------- the agreement

  /** A header without padding, no missing cell outside the split column, and
      every cell of an integer column a finite double. */
  predicate Trainable(py: Python, header: seq<string>, rows: seq<seq<string>>, columns: seq<Column>,
                      split: Option<string>)
    requires AllWide(rows, |header|) && |columns| == |header|
  {
    && header == StripAll(header)
    && forall j | 0 <= j < |header| && Some(columns[j].name) != split ::
         ColumnServes(py, columns[j], ColumnValues(rows, |header|, j))
  }

  /** What an accepted first pass settles. */
  lemma AcceptedFacts(py: Python, limits: Limits, header: seq<string>, rows: seq<seq<string>>,
                      target: Option<string>, split: Option<string>)
    requires Ingest(py, limits, header, rows, target, split).Ok?
    ensures
      var schema := Ingest(py, limits, header, rows, target, split).value;
      var names := StripAll(header);
      && header != [] && AllWide(rows, |header|) && |rows| >= 4 && Distinct(py, names)
      && ValidConfiguration(names, target, split)
      && schema.columns == InferColumns(py, names, Transpose(rows, |names|))
      && schema.readiness == ReadinessOf(py, names, Transpose(rows, |names|), schema.columns, target, split)
      && SplitAccepted(py, header, rows, split)
  {
  }

  lemma IndexOfOnly(py: Python, names: seq<string>, j: nat)
    requires j < |names| && Distinct(py, names)
    ensures IndexOf(names, names[j]) == j
  {
  }

  lemma AssessedReady(names: seq<string>, columns: seq<Column>, target: Option<string>, split: Option<string>,
                      present: nat, distribution: map<string, nat>, anyPositive: bool)
    requires |names| == |columns| && (target.Some? ==> target.value in names)
    ensures Assess(names, columns, target, split, present, distribution, anyPositive).ready <==>
              && target.Some? && Numeric(TypeOf(names, columns, target.value)) && |distribution| >= 2
              && WithType(names, columns, FeatureNames(names, target, split), true) != []
              && WithType(names, columns, FeatureNames(names, target, split), false) == []
  {
  }

  lemma PickedExactly(names: seq<string>, columns: seq<Column>, features: seq<string>)
    requires |names| == |columns| && forall f | f in features :: f in names
    ensures WithType(names, columns, features, true) != [] && WithType(names, columns, features, false) == []
            <==> features != [] && forall f | f in features :: Numeric(TypeOf(names, columns, f))
    ensures features != [] && WithType(names, columns, features, false) == [] ==>
              WithType(names, columns, features, true) != []
  {
    var numeric, other := WithType(names, columns, features, true), WithType(names, columns, features, false);
    if other != [] { assert other[0] in other; }
    if numeric != [] { assert numeric[0] in numeric; }
    if features != [] && other == [] { assert features[0] in features && features[0] in numeric; }
  }

  /** Ready means: a numeric target with two values or more, and features that
      are all numeric. */
  lemma ReadyExactly(py: Python, names: seq<string>, values: seq<seq<string>>, columns: seq<Column>,
                     target: Option<string>, split: Option<string>)
    requires |names| == |values| == |columns| && (target.Some? ==> target.value in names)
    ensures ReadinessOf(py, names, values, columns, target, split).ready <==>
              && target.Some? && Numeric(TypeOf(names, columns, target.value))
              && |Distribution(TargetValues(names, values, target))| >= 2
              && FeatureNames(names, target, split) != []
              && forall f | f in FeatureNames(names, target, split) :: Numeric(TypeOf(names, columns, f))
  {
    var targets := TargetValues(names, values, target);
    AssessedReady(names, columns, target, split, |targets|, Distribution(targets), AnyPositive(py, targets));
    PickedExactly(names, columns, FeatureNames(names, target, split));
  }

  lemma NumericColumn(py: Python, names: seq<string>, values: seq<seq<string>>, target: string,
                      split: Option<string>, j: nat)
    requires |names| == |values| && Distinct(py, names) && target in names
    requires Numeric(TypeOf(names, InferColumns(py, names, values), target))
    requires forall f | f in FeatureNames(names, Some(target), split) :: Numeric(TypeOf(names, InferColumns(py, names, values), f))
    requires j < |names| && Some(names[j]) != split
    ensures Numeric(InferType(py, values[j]))
  {
    IndexOfOnly(py, names, j);
    assert names[j] == target || names[j] in FeatureNames(names, Some(target), split);
  }

  /** In a ready schema every column but the split column is numeric. */
  lemma ReadyMeansNumeric(py: Python, names: seq<string>, values: seq<seq<string>>, target: Option<string>,
                          split: Option<string>, j: nat)
    requires |names| == |values| && Distinct(py, names) && ValidConfiguration(names, target, split)
    requires ReadinessOf(py, names, values, InferColumns(py, names, values), target, split).ready
    requires j < |names| && Some(names[j]) != split
    ensures Numeric(InferType(py, values[j]))
  {
    ReadyExactly(py, names, values, InferColumns(py, names, values), target, split);
    NumericColumn(py, names, values, target.value, split, j);
  }

  /** Features and target are all columns but the split column. */
  lemma EachColumnOnce(py: Python, header: seq<string>, rows: seq<seq<string>>, names: seq<string>,
                       target: string, split: Option<string>)
    requires target in names && Some(target) != split
    ensures
      (ColumnReads(py, header, rows, target)
       && forall f | f in FeatureNames(names, Some(target), split) :: ColumnReads(py, header, rows, f))
      <==> AllRead(py, header, rows, names, split)
  {
    var features := FeatureNames(names, Some(target), split);
    if AllRead(py, header, rows, names, split) {
      var t :| 0 <= t < |names| && names[t] == target;
      forall f | f in features ensures ColumnReads(py, header, rows, f) {
        var j :| 0 <= j < |names| && names[j] == f;
      }
    }
    if ColumnReads(py, header, rows, target) && forall f | f in features :: ColumnReads(py, header, rows, f) {
      forall j | 0 <= j < |names| && Some(names[j]) != split ensures ColumnReads(py, header, rows, names[j]) {
        assert names[j] == target || names[j] in features;
      }
    }
  }

  lemma ColumnSides(classify: Classifier, rows: seq<seq<string>>, width: nat, j: nat)
    requires SplitLike(classify) && AllWide(rows, width) && j < width
    ensures forall i | 0 <= i < |rows| ::
              classify(Some(RawColumn(rows, width, j)[i])) == classify(Some(ColumnValues(rows, width, j)[i]))
  {
  }

  /** Once the rows parse, dividing them fails only for a padded split header. */
  lemma SplitDivides(py: Python, classify: Classifier, header: seq<string>, rows: seq<seq<string>>, parsed: seq<Parsed>,
                     features: seq<string>, target: string, j: nat, split: string, fraction: real)
    requires SplitLike(classify) && rows != []
    requires j < |header| && AllWide(rows, |header|) && Distinct(py, StripAll(header))
    requires split != "" && StripAll(header)[j] == split
    requires SplitFault(SidesOf(classify, Given(ColumnValues(rows, |header|, j)))).None?
    requires ParseRows(py, header, rows, features, target, Some(split)) == Some(parsed)
    ensures Divide(parsed, SidesFor(classify, parsed, Some(split)), fraction).Ok? <==> header[j] == split
  {
    SplitCells(py, header, rows, parsed, features, target, j, split);
    ColumnSides(classify, rows, |header|, j);
    ExplicitSplitExactly(classify, parsed, RawColumn(rows, |header|, j), ColumnValues(rows, |header|, j),
                         header[j] == split, fraction);
  }

  /** What the first pass has settled about the split column, if there is one. */
  ghost predicate SplitAccepted(py: Python, header: seq<string>, rows: seq<seq<string>>, split: Option<string>)
    requires AllWide(rows, |header|)
  {
    split.Some? ==>
      && split.value != "" && split.value in StripAll(header)
      && SplitFault(SidesOf(SplitClassifier(py),
                            Given(ColumnValues(rows, |header|, IndexOf(StripAll(header), split.value))))).None?
  }

  predicate SplitHeaderUnpadded(header: seq<string>, split: Option<string>)
    requires split.Some? ==> split.value in StripAll(header)
  {
    split.Some? ==> header[IndexOf(StripAll(header), split.value)] == split.value
  }

  /** Dividing rows that parse fails only for a padded split header. */
  lemma DivideExactly(py: Python, header: seq<string>, rows: seq<seq<string>>, parsed: seq<Parsed>,
                      features: seq<string>, target: string, split: Option<string>, fraction: real)
    requires py.casefold("") == "" && 0.1 <= fraction <= 0.4
    requires AllWide(rows, |header|) && Distinct(py, StripAll(header)) && |rows| >= 4
    requires SplitAccepted(py, header, rows, split)
    requires ParseRows(py, header, rows, features, target, split) == Some(parsed)
    ensures Divide(parsed, SidesFor(SplitClassifier(py), parsed, split), fraction).Ok?
            <==> SplitHeaderUnpadded(header, split)
  {
    if split.Some? {
      SplitsAreSplitLike(py);
      SplitDivides(py, SplitClassifier(py), header, rows, parsed, features, target,
                   IndexOf(StripAll(header), split.value), split.value, fraction);
    } else {
      FractionPathExactly(|rows|, fraction);
    }
  }

  lemma SnapshotSteps(py: Python, header: seq<string>, rows: seq<seq<string>>, names: seq<string>,
                      target: string, split: Option<string>, fraction: real)
    requires target in names && FeatureNames(names, Some(target), split) != []
    ensures
      var parsed := ParseRows(py, header, DataRows(rows), FeatureNames(names, Some(target), split), target, split);
      TrainingSnapshot(py, header, rows, names, Some(target), split, fraction).Ok? <==>
        && parsed.Some?
        && Divide(parsed.value, SidesFor(SplitClassifier(py), parsed.value, split), fraction).Ok?
  {
  }

  /** Whether the second pass can read all columns but the split column. */
  ghost predicate AllRead(py: Python, header: seq<string>, rows: seq<seq<string>>, names: seq<string>, split: Option<string>) {
    forall j | 0 <= j < |names| && Some(names[j]) != split :: ColumnReads(py, header, rows, names[j])
  }

  /** When the snapshot succeeds, column by column. */
  lemma SnapshotExactly(py: Python, header: seq<string>, rows: seq<seq<string>>,
                        target: string, split: Option<string>, fraction: real)
    requires py.casefold("") == "" && 0.1 <= fraction <= 0.4
    requires header != [] && AllWide(rows, |header|) && Distinct(py, StripAll(header)) && |rows| >= 4
    requires target in StripAll(header) && Some(target) != split
    requires FeatureNames(StripAll(header), Some(target), split) != []
    requires SplitAccepted(py, header, rows, split)
    ensures TrainingSnapshot(py, header, rows, StripAll(header), Some(target), split, fraction).Ok?
            <==> AllRead(py, header, rows, StripAll(header), split) && SplitHeaderUnpadded(header, split)
  {
    var names := StripAll(header);
    var features := FeatureNames(names, Some(target), split);
    WideRowsKept(rows, |header|);
    SnapshotSteps(py, header, rows, names, target, split, fraction);
    var parsed := ParseRows(py, header, rows, features, target, split);
    assert parsed.Some? <==> AllRead(py, header, rows, names, split) by {
      RowsParseExactly(py, header, rows, features, target, split);
      EachColumnOnce(py, header, rows, names, target, split);
    }
    if parsed.Some? {
      DivideExactly(py, header, rows, parsed.value, features, target, split, fraction);
    }
  }

  /** A header is unpadded column by column. */
  lemma HeaderUnpadded(py: Python, header: seq<string>, split: Option<string>)
    requires Distinct(py, StripAll(header)) && (split.Some? ==> split.value in StripAll(header))
    ensures
      var names := StripAll(header);
      header == names <==>
        && (forall j | 0 <= j < |header| && Some(names[j]) != split :: header[j] == names[j])
        && SplitHeaderUnpadded(header, split)
  {
    var names := StripAll(header);
    forall j | 0 <= j < |header| && Some(names[j]) == split ensures split.Some? && IndexOf(names, split.value) == j {
      IndexOfOnly(py, names, j);
    }
  }

  /** The column's header is unpadded and its cells serve. */
  predicate Served(py: Python, header: seq<string>, rows: seq<seq<string>>, columns: seq<Column>, j: nat)
    requires AllWide(rows, |header|) && |columns| == |header| && j < |header|
  {
    header[j] == Strip(header[j]) && ColumnServes(py, columns[j], ColumnValues(rows, |header|, j))
  }

  /** In a ready schema the second pass reads a column exactly if its header is
      unpadded and its cells serve. */
  lemma ReadyColumnReads(py: Python, header: seq<string>, rows: seq<seq<string>>, target: Option<string>,
                         split: Option<string>, columns: seq<Column>, j: nat)
    requires header != [] && AllWide(rows, |header|) && Distinct(py, StripAll(header)) && rows != []
    requires ValidConfiguration(StripAll(header), target, split)
    requires columns == InferColumns(py, StripAll(header), Transpose(rows, |header|))
    requires ReadinessOf(py, StripAll(header), Transpose(rows, |header|), columns, target, split).ready
    requires j < |header| && Some(StripAll(header)[j]) != split
    ensures ColumnReads(py, header, rows, StripAll(header)[j])
            <==> Served(py, header, rows, columns, j)
  {
    var names, values := StripAll(header), Transpose(rows, |header|);
    ReadyMeansNumeric(py, names, values, target, split, j);
    ColumnReadsExactly(py, header, rows, j);
    NumericColumnParses(py, names[j], values[j]);
  }

  /**
   The two passes agree.  On a data set that was reported ready for numeric
   training, the training snapshot of the same rows succeeds exactly if the
   header is unpadded, no feature or target cell is missing, and every integer
   cell is a finite double.
   */
  lemma ReadyDataTrains(py: Python, limits: Limits, header: seq<string>, rows: seq<seq<string>>,
                        target: Option<string>, split: Option<string>, fraction: real)
    requires py.casefold("") == "" && 0.1 <= fraction <= 0.4
    requires Ingest(py, limits, header, rows, target, split).Ok?
    requires Ingest(py, limits, header, rows, target, split).value.readiness.ready
    ensures AllWide(rows, |header|)
    ensures
      var schema := Ingest(py, limits, header, rows, target, split).value;
      && |schema.columns| == |header|
      && (TrainingSnapshot(py, header, rows, StripAll(header), target, split, fraction).Ok?
          <==> Trainable(py, header, rows, schema.columns, split))
  {
    AcceptedFacts(py, limits, header, rows, target, split);
    var schema := Ingest(py, limits, header, rows, target, split).value;
    AcceptedDataTrains(py, header, rows, target, split, schema.columns, fraction);
  }

  lemma AcceptedDataTrains(py: Python, header: seq<string>, rows: seq<seq<string>>, target: Option<string>,
                           split: Option<string>, columns: seq<Column>, fraction: real)
    requires py.casefold("") == "" && 0.1 <= fraction <= 0.4
    requires header != [] && AllWide(rows, |header|) && Distinct(py, StripAll(header)) && |rows| >= 4
    requires ValidConfiguration(StripAll(header), target, split)
    requires columns == InferColumns(py, StripAll(header), Transpose(rows, |header|))
    requires ReadinessOf(py, StripAll(header), Transpose(rows, |header|), columns, target, split).ready
    requires SplitAccepted(py, header, rows, split)
    ensures TrainingSnapshot(py, header, rows, StripAll(header), target, split, fraction).Ok?
            <==> Trainable(py, header, rows, columns, split)
  {
    var names := StripAll(header);
    ReadyExactly(py, names, Transpose(rows, |header|), columns, target, split);
    SnapshotExactly(py, header, rows, target.value, split, fraction);
    ReadyReads(py, header, rows, target, split, columns);
    ColumnsOrServe(py, header, rows, columns, split);
  }

  /** The columns but the split column, each with an unpadded header and cells that serve. */
  ghost predicate AllServe(py: Python, header: seq<string>, rows: seq<seq<string>>, columns: seq<Column>, split: Option<string>)
    requires AllWide(rows, |header|) && |columns| == |header|
  {
    forall j | 0 <= j < |header| && Some(StripAll(header)[j]) != split ::
      Served(py, header, rows, columns, j)
  }

  lemma ReadyReads(py: Python, header: seq<string>, rows: seq<seq<string>>, target: Option<string>,
                   split: Option<string>, columns: seq<Column>)
    requires header != [] && AllWide(rows, |header|) && Distinct(py, StripAll(header)) && rows != []
    requires ValidConfiguration(StripAll(header), target, split)
    requires columns == InferColumns(py, StripAll(header), Transpose(rows, |header|))
    requires ReadinessOf(py, StripAll(header), Transpose(rows, |header|), columns, target, split).ready
    ensures AllRead(py, header, rows, StripAll(header), split) <==> AllServe(py, header, rows, columns, split)
  {
    forall j | 0 <= j < |header| && Some(StripAll(header)[j]) != split
      ensures ColumnReads(py, header, rows, StripAll(header)[j])
              <==> Served(py, header, rows, columns, j)
    {
      ReadyColumnReads(py, header, rows, target, split, columns, j);
    }
  }

  lemma ColumnsOrServe(py: Python, header: seq<string>, rows: seq<seq<string>>, columns: seq<Column>, split: Option<string>)
    requires AllWide(rows, |header|) && Distinct(py, StripAll(header))
    requires split.Some? ==> split.value in StripAll(header)
    requires columns == InferColumns(py, StripAll(header), Transpose(rows, |header|))
    ensures Trainable(py, header, rows, columns, split)
            <==> AllServe(py, header, rows, columns, split) && SplitHeaderUnpadded(header, split)
  {
    HeaderUnpadded(py, header, split);
    assert forall j | 0 <= j < |header| :: columns[j].name == StripAll(header)[j];
  }
}
