/** Values and small facts about finite collections shared by every component. */
module Common {
  datatype Option<+T> = None | Some(value: T)

  datatype Result<+T, +E> = Ok(value: T) | Err(error: E)

  ghost predicate IsLeast(n: nat, s: set<nat>) {
    n in s && forall m | m in s :: n <= m
  }

  /** The smallest member of a nonempty set of numbers. */
  ghost function Least(s: set<nat>): (n: nat)
    requires s != {}
    ensures IsLeast(n, s)
  {
    LeastExists(s);
    var n :| IsLeast(n, s);
    n
  }

  lemma {:induction false} LeastExists(s: set<nat>)
    requires s != {}
    ensures exists n :: IsLeast(n, s)
    decreases |s|
  {
    var x :| x in s;
    if s == {x} {
      assert IsLeast(x, s);
    } else {
      LeastExists(s - {x});
      var y :| IsLeast(y, s - {x});
      var least := if x <= y then x else y;
      forall m | m in s ensures least <= m {
        assert m == x || m in s - {x};
      }
      assert IsLeast(least, s);
    }
  }

  /** A subset has at most as many members. */
  lemma {:induction false} SubsetSize<T>(a: set<T>, b: set<T>)
    requires a <= b
    ensures |a| <= |b|
  {
    assert b == a + (b - a);
  }

  /** A set covered by the image of another one is no larger than it. */
  lemma {:induction false} CoveredSize<S(!new), T(!new)>(a: set<S>, b: set<T>, f: T -> S)
    requires forall x | x in a :: exists y :: y in b && f(y) == x
    ensures |a| <= |b|
    decreases |a|
  {
    if a != {} {
      var x :| x in a;
      var y :| y in b && f(y) == x;
      forall x' | x' in a - {x} ensures exists y' :: y' in b - {y} && f(y') == x' {
        var y' :| y' in b && f(y') == x';
      }
      CoveredSize(a - {x}, b - {y}, f);
    }
  }

  /** The sum of a table's values. */
  ghost function Total(m: map<nat, nat>): nat
    decreases |m|
  {
    if m == map[] then 0
    else
      var k :| k in m;
      m[k] + Total(m - {k})
  }

  /** Any entry may be taken out first. */
  lemma {:induction false} TotalSplit(m: map<nat, nat>, k: nat)
    requires k in m
    ensures Total(m) == m[k] + Total(m - {k})
    decreases |m|
  {
    var first :| first in m && Total(m) == m[first] + Total(m - {first});
    if first != k {
      TotalSplit(m - {first}, k);
      TotalSplit(m - {k}, first);
      assert m - {first} - {k} == m - {k} - {first};
    }
  }

  lemma {:induction false} TotalUpdate(m: map<nat, nat>, k: nat, v: nat)
    ensures k in m ==> Total(m[k := v]) + m[k] == Total(m) + v
    ensures k !in m ==> Total(m[k := v]) == Total(m) + v
  {
    TotalSplit(m[k := v], k);
    assert m[k := v] - {k} == m - {k};
    if k in m {
      TotalSplit(m, k);
    } else {
      assert m - {k} == m;
    }
  }

  /** Adding entries that are zero changes nothing. */
  lemma {:induction false} TotalZeroExtension(m: map<nat, nat>, m': map<nat, nat>)
    requires forall k | k in m :: k in m' && m'[k] == m[k]
    requires forall k | k in m' && k !in m :: m'[k] == 0
    ensures Total(m) == Total(m')
    decreases |m'|
  {
    if extra :| extra in m' && extra !in m {
      TotalSplit(m', extra);
      TotalZeroExtension(m, m' - {extra});
    } else {
      assert m == m';
    }
  }

  lemma {:induction false} TotalMonotone(m: map<nat, nat>, m': map<nat, nat>)
    requires m.Keys == m'.Keys
    requires forall k | k in m :: m[k] <= m'[k]
    ensures Total(m) <= Total(m')
    decreases |m|
  {
    if k :| k in m {
      TotalSplit(m, k);
      TotalSplit(m', k);
      TotalMonotone(m - {k}, m' - {k});
    }
  }
}
