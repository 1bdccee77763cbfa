/** What a training snapshot holds: every number is the cell it claims to be. */
module SnapshotContents {
  import opened Common
  import opened Text
  import opened Ingestion
  import opened IngestionTheorems

  /** The last column with this raw header, the one a dictionary row keeps. */
  predicate LastNamed(header: seq<string>, name: string, j: nat) {
    j < |header| && header[j] == name && forall k | j < k < |header| :: header[k] != name
  }

  /** `x` is the number in the row's cell under that name. */
  ghost predicate Reads(py: Python, header: seq<string>, row: seq<string>, name: string, x: real) {
    exists j: nat :: LastNamed(header, name, j) && j < |row| && py.parseFloat(Strip(row[j])) == Finite(x)
  }

  ghost predicate RowReads(py: Python, header: seq<string>, row: seq<string>, features: seq<string>, target: string,
                           xs: seq<real>, y: real)
  {
    && |xs| == |features|
    && (forall c | 0 <= c < |features| :: Reads(py, header, row, features[c], xs[c]))
    && Reads(py, header, row, target, y)
  }

  lemma {:induction false} LookupFinds(header: seq<string>, row: seq<string>, name: string) returns (j: nat)
    requires Lookup(header, row, name).Some?
    ensures LastNamed(header, name, j) && j < |row| && Lookup(header, row, name) == Some(row[j])
    decreases |header|
  {
    var k := |header| - 1;
    if header[k] == name {
      j := k;
    } else {
      j := LookupFinds(header[..k], row, name);
    }
  }

  lemma NumberReads(py: Python, header: seq<string>, row: seq<string>, name: string, x: real)
    requires FiniteNumber(py, Lookup(header, row, name)) == Some(x)
    ensures Reads(py, header, row, name, x)
  {
    var j := LookupFinds(header, row, name);
  }

  lemma {:induction false} FeaturesRead(py: Python, header: seq<string>, row: seq<string>, features: seq<string>)
    requires ParseFeatures(py, header, row, features).Some?
    ensures forall c | 0 <= c < |features| ::
              Reads(py, header, row, features[c], ParseFeatures(py, header, row, features).value[c])
    decreases |features|
  {
    var xs := ParseFeatures(py, header, row, features).value;
    if features != [] {
      NumberReads(py, header, row, features[0], xs[0]);
      FeaturesRead(py, header, row, features[1..]);
      forall c | 1 <= c < |features| ensures Reads(py, header, row, features[c], xs[c]) {
        assert Reads(py, header, row, features[1..][c - 1], xs[1..][c - 1]);
      }
    }
  }

  lemma ParsedRowReads(py: Python, header: seq<string>, row: seq<string>, features: seq<string>, target: string,
                       split: Option<string>)
    requires ParseRow(py, header, row, features, target, split).Some?
    ensures
      var p := ParseRow(py, header, row, features, target, split).value;
      RowReads(py, header, row, features, target, p.features, p.target)
  {
    FeaturesRead(py, header, row, features);
    NumberReads(py, header, row, target, ParseRow(py, header, row, features, target, split).value.target);
  }

  // --------------------------------------------------- which row goes where

  predicate StrictlyIncreasing(places: seq<nat>) {
    forall i, j | 0 <= i < j < |places| :: places[i] < places[j]
  }

  /** Two ordered lists of row numbers that share none and leave none of `n` out. */
  ghost predicate Partition(a: seq<nat>, b: seq<nat>, n: nat) {
    && StrictlyIncreasing(a) && StrictlyIncreasing(b)
    && (forall i | i in a || i in b :: i < n)
    && (forall i: nat | i < n :: (i in a) != (i in b))
  }

  /** The places of one side, in order. */
  function Places(sides: seq<Side>, side: Side): (places: seq<nat>)
    ensures forall r | 0 <= r < |places| :: places[r] < |sides| && sides[places[r]] == side
    ensures forall i: nat :: i in places <==> i < |sides| && sides[i] == side
    ensures StrictlyIncreasing(places)
    decreases |sides|
  {
    if sides == [] then []
    else
      var n := |sides| - 1;
      var before := Places(sides[..n], side);
      if sides[n] == side then before + [n] else before
  }

  lemma {:induction false} KeepAtPlaces<T>(items: seq<T>, sides: seq<Side>, side: Side)
    requires |items| == |sides|
    ensures |Places(sides, side)| == |Keep(items, sides, side)|
    ensures forall r | 0 <= r < |Places(sides, side)| :: Keep(items, sides, side)[r] == items[Places(sides, side)[r]]
    decreases |items|
  {
    if items != [] {
      var n := |items| - 1;
      KeepAtPlaces(items[..n], sides[..n], side);
    }
  }

  /** The entries stand at these places of the whole. */
  predicate StandsAt<T(==)>(part: seq<T>, whole: seq<T>, places: seq<nat>) {
    |part| == |places| && forall r | 0 <= r < |part| :: places[r] < |whole| && part[r] == whole[places[r]]
  }

  lemma DividedBySide(parsed: seq<Parsed>, sides: seq<Side>, fraction: real)
    requires |sides| == |parsed| && Divide(parsed, Some(sides), fraction).Ok?
    ensures
      var (a, b) := Divide(parsed, Some(sides), fraction).value;
      var training, evaluation := Places(sides, Side.Training), Places(sides, Side.Evaluation);
      Partition(training, evaluation, |parsed|) && StandsAt(a, parsed, training) && StandsAt(b, parsed, evaluation)
  {
    KeepAtPlaces(parsed, sides, Side.Training);
    KeepAtPlaces(parsed, sides, Side.Evaluation);
    forall i: nat | i < |parsed|
      ensures (i in Places(sides, Side.Training)) != (i in Places(sides, Side.Evaluation))
    {
      assert sides[i] in sides;
    }
  }

  /** The numbers from `lo` up to but not including `hi`. */
  function Interval(lo: nat, hi: nat): (places: seq<nat>)
    requires lo <= hi
    ensures |places| == hi - lo && forall r | 0 <= r < |places| :: places[r] == lo + r
    ensures forall i: nat :: i in places <==> lo <= i < hi
    decreases hi - lo
  {
    if lo == hi then [] else Interval(lo, hi - 1) + [hi - 1]
  }

  lemma DividedByPosition(parsed: seq<Parsed>, fraction: real)
    requires Divide(parsed, None, fraction).Ok?
    ensures
      var (a, b) := Divide(parsed, None, fraction).value;
      var training, evaluation := Interval(0, |a|), Interval(|a|, |a| + |b|);
      Partition(training, evaluation, |parsed|) && StandsAt(a, parsed, training) && StandsAt(b, parsed, evaluation)
  {
  }

  /** Where the rows of the two halves come from. */
  function PlacesOf(py: Python, parsed: seq<Parsed>, split: Option<string>, fraction: real): (places: (seq<nat>, seq<nat>))
    requires Divide(parsed, SidesFor(SplitClassifier(py), parsed, split), fraction).Ok?
  {
    if split.Some? then
      var sides := SidesOf(SplitClassifier(py), Splits(parsed));
      (Places(sides, Side.Training), Places(sides, Side.Evaluation))
    else
      var (a, b) := Divide(parsed, None, fraction).value;
      (Interval(0, |a|), Interval(|a|, |a| + |b|))
  }

  lemma DividedAtPlaces(py: Python, parsed: seq<Parsed>, split: Option<string>, fraction: real)
    requires Divide(parsed, SidesFor(SplitClassifier(py), parsed, split), fraction).Ok?
    ensures
      var (a, b) := Divide(parsed, SidesFor(SplitClassifier(py), parsed, split), fraction).value;
      var (training, evaluation) := PlacesOf(py, parsed, split, fraction);
      Partition(training, evaluation, |parsed|) && StandsAt(a, parsed, training) && StandsAt(b, parsed, evaluation)
  {
    if split.Some? {
      DividedBySide(parsed, SidesOf(SplitClassifier(py), Splits(parsed)), fraction);
    } else {
      DividedByPosition(parsed, fraction);
    }
  }

  /** The row's split cell names this side. */
  predicate NamesSide(py: Python, header: seq<string>, row: seq<string>, split: string, side: Side) {
    SideOf(py, if split == "" then None else Lookup(header, row, split)) == side
  }

  /** The entries are read, features and target alike, from the rows at these places. */
  ghost predicate HalfReads(py: Python, header: seq<string>, data: seq<seq<string>>, features: seq<string>, target: string,
                            xs: seq<seq<real>>, ys: seq<real>, places: seq<nat>)
  {
    && |xs| == |ys| == |places|
    && forall r | 0 <= r < |xs| ::
         places[r] < |data| && RowReads(py, header, data[places[r]], features, target, xs[r], ys[r])
  }

  lemma HalfIsRead(py: Python, header: seq<string>, data: seq<seq<string>>, features: seq<string>, target: string,
                   split: Option<string>, half: seq<Parsed>, places: seq<nat>)
    requires ParseRows(py, header, data, features, target, split).Some?
    requires StandsAt(half, ParseRows(py, header, data, features, target, split).value, places)
    ensures HalfReads(py, header, data, features, target, Features(half), Targets(half), places)
  {
    var parsed := ParseRows(py, header, data, features, target, split).value;
    forall r | 0 <= r < |half|
      ensures places[r] < |data|
              && RowReads(py, header, data[places[r]], features, target, Features(half)[r], Targets(half)[r])
    {
      var i := places[r];
      assert half[r] == parsed[i];
      assert Some(parsed[i]) == ParseRow(py, header, data[i], features, target, split);
      ParsedRowReads(py, header, data[i], features, target, split);
    }
  }

  lemma SplitCellsName(py: Python, header: seq<string>, data: seq<seq<string>>, features: seq<string>, target: string,
                       split: string, i: nat)
    requires ParseRows(py, header, data, features, target, Some(split)).Some? && i < |data|
    ensures
      var parsed := ParseRows(py, header, data, features, target, Some(split)).value;
      NamesSide(py, header, data[i], split, SidesOf(SplitClassifier(py), Splits(parsed))[i])
  {
    var parsed := ParseRows(py, header, data, features, target, Some(split)).value;
    assert Some(parsed[i]) == ParseRow(py, header, data[i], features, target, Some(split));
    assert SidesOf(SplitClassifier(py), Splits(parsed))[i] == SplitClassifier(py)(parsed[i].split);
  }

  /**
   Every data row is used exactly once and in order: the training and the
   evaluation entries are read, cell by named cell, from two disjoint increasing
   selections that together are all data rows.  With a split column each row is in
   the half it names; without one the last rows are for evaluation.
   */
  lemma SnapshotReadsRows(py: Python, header: seq<string>, rows: seq<seq<string>>, names: seq<string>, target: string,
                          split: Option<string>, fraction: real) returns (training: seq<nat>, evaluation: seq<nat>)
    requires TrainingSnapshot(py, header, rows, names, Some(target), split, fraction).Ok?
    ensures
      var s := TrainingSnapshot(py, header, rows, names, Some(target), split, fraction).value;
      var data, features := DataRows(rows), FeatureNames(names, Some(target), split);
      && Partition(training, evaluation, |data|)
      && HalfReads(py, header, data, features, target, s.trainingX, s.trainingY, training)
      && HalfReads(py, header, data, features, target, s.evaluationX, s.evaluationY, evaluation)
    ensures split.Some? ==>
              && (forall i | i in training :: NamesSide(py, header, DataRows(rows)[i], split.value, Side.Training))
              && (forall i | i in evaluation :: NamesSide(py, header, DataRows(rows)[i], split.value, Side.Evaluation))
    ensures split.None? ==> forall i, j | i in training && j in evaluation :: i < j
  {
    var data, features := DataRows(rows), FeatureNames(names, Some(target), split);
    var parsed := ParseRows(py, header, data, features, target, split).value;
    var (a, b) := Divide(parsed, SidesFor(SplitClassifier(py), parsed, split), fraction).value;
    DividedAtPlaces(py, parsed, split, fraction);
    training, evaluation := PlacesOf(py, parsed, split, fraction).0, PlacesOf(py, parsed, split, fraction).1;
    HalfIsRead(py, header, data, features, target, split, a, training);
    HalfIsRead(py, header, data, features, target, split, b, evaluation);
    if split.Some? {
      forall i: nat | i < |data|
        ensures NamesSide(py, header, data[i], split.value, SidesOf(SplitClassifier(py), Splits(parsed))[i])
      {
        SplitCellsName(py, header, data, features, target, split.value, i);
      }
    }
  }

  // ------------------------------------------------------ rows and failures

  /** The places of the lines that are not empty, in order. */
  function FilledLines(rows: seq<seq<string>>): (places: seq<nat>)
    ensures forall r | 0 <= r < |places| :: places[r] < |rows| && rows[places[r]] != []
    ensures forall i: nat :: i in places <==> i < |rows| && rows[i] != []
    ensures StrictlyIncreasing(places)
    decreases |rows|
  {
    if rows == [] then []
    else
      var n := |rows| - 1;
      var before := FilledLines(rows[..n]);
      if rows[n] != [] then before + [n] else before
  }

  /** The data rows are the lines that are not empty, in their order. */
  lemma {:induction false} DataRowsAt(rows: seq<seq<string>>)
    ensures |DataRows(rows)| == |FilledLines(rows)|
    ensures forall r | 0 <= r < |FilledLines(rows)| :: DataRows(rows)[r] == rows[FilledLines(rows)[r]]
    decreases |rows|
  {
    if rows != [] {
      DataRowsAt(rows[..|rows| - 1]);
    }
  }

  lemma NumberMeaning(py: Python, cell: Option<string>, x: real)
    ensures FiniteNumber(py, cell) == Some(x) <==>
              cell.Some? && Strip(cell.value) != "" && py.parseFloat(Strip(cell.value)) == Finite(x)
  {
  }

  lemma NoFeatures(names: seq<string>, target: Option<string>, split: Option<string>)
    ensures FeatureNames(names, target, split) == [] <==> forall f | f in names :: Some(f) == target || Some(f) == split
  {
    var features := FeatureNames(names, target, split);
    if features != [] { assert features[0] in features; }
  }

  /** Dividing fails for an unknown side, for too few rows of a side, or for too few rows. */
  lemma DivideFailures(parsed: seq<Parsed>, sides: Option<seq<Side>>, fraction: real)
    requires sides.Some? ==> |sides.value| == |parsed|
    ensures
      var result := Divide(parsed, sides, fraction);
      if sides.Some? then
        && (result == Err(BadSplitValue) <==> Side.Unknown in sides.value)
        && (result.Err? ==> result.error in {BadSplitValue, SmallSplit})
        && (result == Err(SmallSplit) <==>
              Side.Unknown !in sides.value
              && (|Places(sides.value, Side.Training)| < 2 || |Places(sides.value, Side.Evaluation)| < 2))
      else result.Err? ==> result == Err(TooSmallForSplit)
  {
    if sides.Some? {
      KeepAtPlaces(parsed, sides.value, Side.Training);
      KeepAtPlaces(parsed, sides.value, Side.Evaluation);
    }
  }

  lemma SnapshotCases(py: Python, header: seq<string>, rows: seq<seq<string>>, names: seq<string>,
                      target: string, split: Option<string>, fraction: real)
    requires target in names
    ensures
      var result := TrainingSnapshot(py, header, rows, names, Some(target), split, fraction);
      var features := FeatureNames(names, Some(target), split);
      var parsed := ParseRows(py, header, DataRows(rows), features, target, split);
      if features == [] then result == Err(NoFeatureColumns)
      else if parsed.None? then result == Err(NotNumeric)
      else
        var divided := Divide(parsed.value, SidesFor(SplitClassifier(py), parsed.value, split), fraction);
        && (result.Err? <==> divided.Err?)
        && (result.Err? ==> result.error == divided.error)
  {
  }

  /** Which failure a snapshot reports. */
  lemma SnapshotFailures(py: Python, header: seq<string>, rows: seq<seq<string>>, names: seq<string>,
                         target: Option<string>, split: Option<string>, fraction: real)
    requires target.Some? ==> target != split
    ensures
      var result := TrainingSnapshot(py, header, rows, names, target, split, fraction);
      if target == None then result == Err(NoTarget)
      else if target.value !in names then result == Err(InvalidSchema)
      else if forall f | f in names :: Some(f) == target || Some(f) == split then result == Err(NoFeatureColumns)
      else if exists f | f in names :: Some(f) != split && !ColumnReads(py, header, DataRows(rows), f) then
        result == Err(NotNumeric)
      else result.Err? ==>
        if split.Some? then result.error in {BadSplitValue, SmallSplit} else result.error == TooSmallForSplit
  {
    if target.Some? && target.value in names {
      var parsed := ParseRows(py, header, DataRows(rows), FeatureNames(names, target, split), target.value, split);
      SnapshotCases(py, header, rows, names, target.value, split, fraction);
      NoFeatures(names, target, split);
      RowsParseExactly(py, header, DataRows(rows), FeatureNames(names, target, split), target.value, split);
      EachColumnOnce(py, header, DataRows(rows), names, target.value, split);
      ReadByName(py, header, DataRows(rows), names, split);
      if parsed.Some? {
        DivideFailures(parsed.value, SidesFor(SplitClassifier(py), parsed.value, split), fraction);
      }
    }
  }

  lemma ReadByName(py: Python, header: seq<string>, rows: seq<seq<string>>, names: seq<string>, split: Option<string>)
    ensures AllRead(py, header, rows, names, split)
            <==> forall f | f in names :: Some(f) != split ==> ColumnReads(py, header, rows, f)
  {
    if AllRead(py, header, rows, names, split) {
      forall f | f in names && Some(f) != split ensures ColumnReads(py, header, rows, f) {
        var j :| 0 <= j < |names| && names[j] == f;
      }
    }
  }

  // --------------------------------------------------- how many are held out

  /** `count` is the whole number nearest to the share, ties going to the even one. */
  predicate NearestEven(count: int, share: real) {
    && -0.5 <= count as real - share <= 0.5
    && (count as real - share == 0.5 || count as real - share == -0.5 ==> count % 2 == 0)
  }

  /** Two rows, or the share of all rows rounded half to even where that is more. */
  predicate HeldOut(count: int, share: real) {
    && (share <= 2.5 ==> count == 2)
    && (share > 2.5 ==> count > 2 && NearestEven(count, share))
  }

  lemma DividedShare(parsed: seq<Parsed>, fraction: real)
    requires Divide(parsed, None, fraction).Ok?
    ensures
      var (a, b) := Divide(parsed, None, fraction).value;
      |a| + |b| == |parsed| && HeldOut(|b|, Share(|parsed|, fraction))
  {
    RoundMeaning(Share(|parsed|, fraction));
  }

  lemma SnapshotHalves(py: Python, header: seq<string>, rows: seq<seq<string>>, names: seq<string>, target: string,
                       fraction: real)
    requires TrainingSnapshot(py, header, rows, names, Some(target), None, fraction).Ok?
    ensures
      var s := TrainingSnapshot(py, header, rows, names, Some(target), None, fraction).value;
      |s.trainingX| + |s.evaluationX| == |DataRows(rows)| && HeldOut(|s.evaluationX|, Share(|DataRows(rows)|, fraction))
  {
    var features := FeatureNames(names, Some(target), None);
    var parsed := ParseRows(py, header, DataRows(rows), features, target, None).value;
    DividedShare(parsed, fraction);
  }

  lemma ShareOf(n: nat, fraction: real, share: real)
    requires share == n as real * fraction
    ensures share == Share(n, fraction)
  {
  }

  /** How many rows are held out when there is no split column: `share` is the
      asked fraction of all data rows. */
  lemma HeldOutShare(py: Python, header: seq<string>, rows: seq<seq<string>>, names: seq<string>, target: string,
                     fraction: real, n: nat, share: real)
    requires TrainingSnapshot(py, header, rows, names, Some(target), None, fraction).Ok?
    requires n == |DataRows(rows)| && share == n as real * fraction
    ensures
      var s := TrainingSnapshot(py, header, rows, names, Some(target), None, fraction).value;
      |s.trainingX| + |s.evaluationX| == n && HeldOut(|s.evaluationX|, share)
  {
    SnapshotHalves(py, header, rows, names, target, fraction);
    ShareOf(n, fraction, share);
  }
}
