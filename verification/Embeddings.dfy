/** Hashed bag-of-tokens embeddings and their cosine, in exact arithmetic. */
module Embeddings {
  import opened Common
  import opened Text

  const DIMENSION := 256
  const MAXIMUM_TEXT := 16_000

  /** The parts of a token's digest in use: its first eight bytes as a number and
      the ninth byte. */
  datatype Digest = Digest(head: nat, ninth: nat)

  type Hash = string -> Digest

  datatype EmbeddingError = EmptyText | TextTooLong | NoIndexableTerms | NormalizationFailed
                          | DimensionMismatch

  function Bucket(digest: Digest): (b: nat)
    ensures b < DIMENSION
  {
    digest.head % DIMENSION
  }

  function Sign(digest: Digest): int {
    if digest.ninth % 2 == 0 then 1 else -1
  }

  /** The signed count of one bucket. */
  function RawAt(hash: Hash, tokens: seq<string>, i: nat): int {
    if tokens == [] then 0
    else
      (if Bucket(hash(tokens[0])) == i then Sign(hash(tokens[0])) else 0) + RawAt(hash, tokens[1..], i)
  }

  ghost predicate IsRaw(hash: Hash, tokens: seq<string>, values: seq<int>) {
    |values| == DIMENSION && forall i | 0 <= i < DIMENSION :: values[i] == RawAt(hash, tokens, i)
  }

  function Raw(hash: Hash, tokens: seq<string>): (values: seq<int>)
    ensures IsRaw(hash, tokens, values)
  {
    seq(DIMENSION, i requires 0 <= i < DIMENSION => RawAt(hash, tokens, i))
  }

  function SumSquares(values: seq<int>): nat {
    if values == [] then 0 else Square(values[0]) + SumSquares(values[1..])
  }

  function Square(x: int): nat {
    x * x
  }

  function Scaled(values: seq<int>, norm: real): (scaled: seq<real>)
    requires norm > 0.0
    ensures |scaled| == |values| && forall i | 0 <= i < |values| :: scaled[i] == values[i] as real / norm
  {
    seq(|values|, i requires 0 <= i < |values| => values[i] as real / norm)
  }

  function Times(x: real, y: real): real {
    x * y
  }

  function Dot(a: seq<real>, b: seq<real>): real
    requires |a| == |b|
  {
    if a == [] then 0.0 else Times(a[0], b[0]) + Dot(a[1..], b[1..])
  }

  predicate Unit(v: seq<real>) {
    Dot(v, v) == 1.0
  }

  /** The library's square root, in exact arithmetic. */
  type Root = nat -> real

  ghost predicate IsRoot(sqrt: Root) {
    forall n :: sqrt(n) >= 0.0 && Times(sqrt(n), sqrt(n)) == n as real
  }

  /** The embedding of a text with these terms. */
  function Embedding(hash: Hash, sqrt: Root, text: string, tokens: seq<string>): Result<seq<real>, EmbeddingError> {
    if Strip(text) == "" then Err(EmptyText)
    else if |text| > MAXIMUM_TEXT then Err(TextTooLong)
    else if tokens == [] then Err(NoIndexableTerms)
    else Normalized(sqrt, Raw(hash, tokens))
  }

  function Normalized(sqrt: Root, values: seq<int>): Result<seq<real>, EmbeddingError> {
    var norm := sqrt(SumSquares(values));
    if norm <= 0.0 then Err(NormalizationFailed) else Ok(Scaled(values, norm))
  }

  // ----------------------------------------------------------- the embedding

  /** The token loop: one signed step per token, in place. */
  method Accumulate(hash: Hash, tokens: seq<string>, values: array<int>)
    requires values.Length == DIMENSION && forall i | 0 <= i < DIMENSION :: values[i] == 0
    modifies values
    ensures IsRaw(hash, tokens, values[..])
  {
    var n := 0;
    while n < |tokens|
      invariant n <= |tokens|
      invariant forall i | 0 <= i < DIMENSION :: values[i] == RawAt(hash, tokens[..n], i)
    {
      var digest := hash(tokens[n]);
      var bucket := Bucket(digest);
      forall i: nat ensures RawAt(hash, tokens[..n + 1], i)
                            == RawAt(hash, tokens[..n], i) + if bucket == i then Sign(digest) else 0
      {
        assert tokens[..n + 1] == tokens[..n] + [tokens[n]];
        RawConcat(hash, tokens[..n], [tokens[n]], i);
        assert [tokens[n]][1..] == [];
      }
      values[bucket] := values[bucket] + Sign(digest);
      n := n + 1;
    }
    assert tokens[..n] == tokens;
  }

  method EmbedOne(hash: Hash, sqrt: Root, text: string, tokens: seq<string>)
    returns (result: Result<seq<real>, EmbeddingError>)
    ensures result == Embedding(hash, sqrt, text, tokens)
    ensures IsRoot(sqrt) && result.Ok? ==> |result.value| == DIMENSION && Unit(result.value)
  {
    if Strip(text) == "" { return Err(EmptyText); }
    if |text| > MAXIMUM_TEXT { return Err(TextTooLong); }
    if tokens == [] { return Err(NoIndexableTerms); }
    var values := new int[DIMENSION](_ => 0);
    Accumulate(hash, tokens, values);
    assert values[..] == Raw(hash, tokens);
    var norm := sqrt(SumSquares(values[..]));
    if norm <= 0.0 { return Err(NormalizationFailed); }
    if IsRoot(sqrt) { EmbeddingIsUnit(hash, sqrt, text, tokens); }
    return Ok(Scaled(values[..], norm));
  }

  /** The cosine of two vectors of the provider's width, kept within 0 and 1. */
  function CosineSimilarity(left: seq<real>, right: seq<real>): Result<real, EmbeddingError> {
    if |left| != DIMENSION || |right| != |left| then Err(DimensionMismatch)
    else
      var cosine := Dot(left, right);
      var capped := if cosine < 1.0 then cosine else 1.0;
      Ok(if capped > 0.0 then capped else 0.0)
  }

  // ------------------------------------------------------- bags of tokens

  /** Embeddings add up over concatenation. */
  lemma {:induction false} RawConcat(hash: Hash, a: seq<string>, b: seq<string>, i: nat)
    ensures RawAt(hash, a + b, i) == RawAt(hash, a, i) + RawAt(hash, b, i)
    decreases |a|
  {
    if a == [] {
      assert a + b == b;
    } else {
      assert (a + b)[1..] == a[1..] + b;
      RawConcat(hash, a[1..], b, i);
    }
  }

  predicate VotesFor(hash: Hash, token: string, i: nat, up: bool) {
    Bucket(hash(token)) == i && (hash(token).ninth % 2 == 0) == up
  }

  /** The positions of the tokens that count up (or down) in a bucket. */
  function Votes(hash: Hash, tokens: seq<string>, i: nat, up: bool): set<nat> {
    set k: nat | k < |tokens| && VotesFor(hash, tokens[k], i, up)
  }

  lemma VotesGrow(hash: Hash, before: seq<string>, last: string, i: nat, up: bool)
    ensures |Votes(hash, before + [last], i, up)|
            == |Votes(hash, before, i, up)| + if VotesFor(hash, last, i, up) then 1 else 0
  {
    var tokens, n := before + [last], |before|;
    var earlier, grown := Votes(hash, before, i, up), Votes(hash, tokens, i, up);
    forall k ensures k in grown <==> k in earlier || (k == n && VotesFor(hash, last, i, up)) {
      if 0 <= k < n { assert tokens[k] == before[k]; }
    }
    assert grown == if VotesFor(hash, last, i, up) then earlier + {n} else earlier;
  }

  /** A bucket holds its upward votes less its downward ones. */
  lemma {:induction false} RawCountsVotes(hash: Hash, tokens: seq<string>, i: nat)
    ensures RawAt(hash, tokens, i) == |Votes(hash, tokens, i, true)| - |Votes(hash, tokens, i, false)|
    decreases |tokens|
  {
    if tokens != [] {
      var before, last := tokens[..|tokens| - 1], tokens[|tokens| - 1];
      RawCountsVotes(hash, before, i);
      assert tokens == before + [last];
      RawConcat(hash, before, [last], i);
      assert [last][1..] == [];
      VotesGrow(hash, before, last, i, true);
      VotesGrow(hash, before, last, i, false);
    }
  }

  /** Only which tokens occur and how often matters, never their order. */
  lemma {:induction false} OrderIrrelevant(hash: Hash, a: seq<string>, b: seq<string>, i: nat)
    requires multiset(a) == multiset(b)
    ensures RawAt(hash, a, i) == RawAt(hash, b, i)
    decreases |a|
  {
    if a == [] {
      assert |multiset(b)| == 0;
    } else {
      assert a[0] in multiset(b);
      var k :| 0 <= k < |b| && b[k] == a[0];
      var head, tail := b[..k], b[k + 1..];
      assert b == head + ([b[k]] + tail);
      assert a == [a[0]] + a[1..];
      assert multiset(a) == multiset{a[0]} + multiset(a[1..]);
      assert multiset(b) == multiset(head) + (multiset{a[0]} + multiset(tail));
      assert multiset(head + tail) == multiset(head) + multiset(tail);
      assert multiset(a[1..]) == multiset(a) - multiset{a[0]};
      assert multiset(head + tail) == multiset(b) - multiset{a[0]};
      OrderIrrelevant(hash, a[1..], head + tail, i);
      RawConcat(hash, head, tail, i);
      RawConcat(hash, head, [b[k]] + tail, i);
      assert ([b[k]] + tail)[1..] == tail;
    }
  }

  lemma SameBagSameRaw(hash: Hash, a: seq<string>, b: seq<string>)
    requires multiset(a) == multiset(b)
    ensures Raw(hash, a) == Raw(hash, b)
  {
    forall i | 0 <= i < DIMENSION ensures Raw(hash, a)[i] == Raw(hash, b)[i] {
      OrderIrrelevant(hash, a, b, i);
    }
  }

  /** Texts with the same bag of terms have the same embedding, or fail alike. */
  lemma SameBagSameEmbedding(hash: Hash, sqrt: Root, textA: string, textB: string, a: seq<string>, b: seq<string>)
    requires Strip(textA) != "" && |textA| <= MAXIMUM_TEXT && Strip(textB) != "" && |textB| <= MAXIMUM_TEXT
    requires multiset(a) == multiset(b)
    ensures Embedding(hash, sqrt, textA, a) == Embedding(hash, sqrt, textB, b)
  {
    SameBagSameRaw(hash, a, b);
    assert |multiset(a)| == |a| && |multiset(b)| == |b|;
  }

  function Doubled(values: seq<int>): (doubled: seq<int>)
    ensures |doubled| == |values| && forall i | 0 <= i < |values| :: doubled[i] == 2 * values[i]
  {
    seq(|values|, i requires 0 <= i < |values| => 2 * values[i])
  }

  lemma {:induction false} SquaresDoubled(values: seq<int>)
    ensures SumSquares(Doubled(values)) == 4 * SumSquares(values)
    decreases |values|
  {
    if values != [] {
      EvenSquare(values[0]);
      assert Doubled(values)[1..] == Doubled(values[1..]);
      SquaresDoubled(values[1..]);
    }
  }

  lemma RootUnique(x: real, y: real)
    requires x >= 0.0 && y >= 0.0 && Times(x, x) == Times(y, y)
    ensures x == y
  {
    if x != y {
      assert (x - y) * (x + y) == x * x - y * y == 0.0;
      if x > y { PositiveProduct(x - y, x + y); } else { PositiveProduct(y - x, x + y); }
    }
  }

  lemma RootOfQuadruple(sqrt: Root, n: nat)
    requires IsRoot(sqrt)
    ensures sqrt(4 * n) == 2.0 * sqrt(n)
  {
    var r := sqrt(n);
    assert Times(sqrt(4 * n), sqrt(4 * n)) == (4 * n) as real == 4.0 * Times(r, r);
    assert Times(2.0 * r, 2.0 * r) == 4.0 * Times(r, r) by { assert (2.0 * r) * (2.0 * r) == 4.0 * (r * r); }
    RootUnique(sqrt(4 * n), 2.0 * r);
  }

  lemma Halve(x: int, norm: real)
    requires norm > 0.0
    ensures (2 * x) as real / (2.0 * norm) == x as real / norm
  {
  }

  /** Repeating a text does not change its embedding. */
  lemma RepetitionKeepsEmbedding(hash: Hash, sqrt: Root, text: string, twice: string, tokens: seq<string>)
    requires IsRoot(sqrt)
    requires Strip(text) != "" && |text| <= MAXIMUM_TEXT && Strip(twice) != "" && |twice| <= MAXIMUM_TEXT
    ensures Embedding(hash, sqrt, twice, tokens + tokens) == Embedding(hash, sqrt, text, tokens)
  {
    var values, norm := Raw(hash, tokens), sqrt(SumSquares(Raw(hash, tokens)));
    forall i | 0 <= i < DIMENSION ensures Raw(hash, tokens + tokens)[i] == 2 * values[i] {
      RawConcat(hash, tokens, tokens, i);
    }
    assert Raw(hash, tokens + tokens) == Doubled(values);
    SquaresDoubled(values);
    RootOfQuadruple(sqrt, SumSquares(values));
    if norm > 0.0 {
      forall i | 0 <= i < DIMENSION ensures Scaled(Doubled(values), 2.0 * norm)[i] == Scaled(values, norm)[i] {
        Halve(values[i], norm);
      }
      assert Scaled(Doubled(values), 2.0 * norm) == Scaled(values, norm);
    }
  }

  // ---------------------------------------------------------- the norm check

  function Sum(values: seq<int>): int {
    if values == [] then 0 else values[0] + Sum(values[1..])
  }

  lemma {:induction false} SumUpdate(values: seq<int>, k: nat, x: int)
    requires k < |values|
    ensures Sum(values[k := values[k] + x]) == Sum(values) + x
    decreases |values|
  {
    if k == 0 {
      assert values[0 := values[0] + x][1..] == values[1..];
    } else {
      assert values[k := values[k] + x][1..] == values[1..][k - 1 := values[1..][k - 1] + x];
      SumUpdate(values[1..], k - 1, x);
    }
  }

  lemma {:induction false} ZeroSum(values: seq<int>)
    requires forall i | 0 <= i < |values| :: values[i] == 0
    ensures Sum(values) == 0
    decreases |values|
  {
    if values != [] {
      ZeroSum(values[1..]);
    }
  }

  /** Each token moves the sum of all buckets by one, up or down. */
  lemma {:induction false} SumParity(hash: Hash, tokens: seq<string>, values: seq<int>)
    requires IsRaw(hash, tokens, values)
    ensures (Sum(values) - |tokens|) % 2 == 0
    decreases |tokens|
  {
    if tokens == [] {
      ZeroSum(values);
    } else {
      var digest := hash(tokens[0]);
      var rest := seq(DIMENSION, i requires 0 <= i < DIMENSION => RawAt(hash, tokens[1..], i));
      assert values == rest[Bucket(digest) := rest[Bucket(digest)] + Sign(digest)];
      SumUpdate(rest, Bucket(digest), Sign(digest));
      SumParity(hash, tokens[1..], rest);
    }
  }

  lemma EvenSquare(h: int)
    ensures Square(2 * h) == 4 * Square(h)
    ensures Square(2 * h + 1) == 4 * Square(h) + 4 * h + 1
  {
    assert (2 * h) * (2 * h) == 4 * (h * h);
    assert (2 * h + 1) * (2 * h + 1) == 4 * (h * h) + 4 * h + 1;
  }

  lemma TwiceIsEven(half: int)
    ensures (2 * half) % 2 == 0
  {
  }

  lemma SquareParity(x: int)
    ensures (Square(x) - x) % 2 == 0
  {
    var h := if x % 2 == 0 then x / 2 else (x - 1) / 2;
    var q: int := Square(h);
    EvenSquare(h);
    TwiceIsEven(if x == 2 * h then 2 * q - h else 2 * q + h);
  }

  lemma ParityAdds(a: int, b: int, c: int, d: int)
    requires (a - b) % 2 == 0 && (c - d) % 2 == 0
    ensures (a + c - (b + d)) % 2 == 0
  {
  }

  lemma {:induction false} SquaresParity(values: seq<int>)
    ensures (SumSquares(values) - Sum(values)) % 2 == 0
    decreases |values|
  {
    if values != [] {
      SquareParity(values[0]);
      SquaresParity(values[1..]);
      ParityAdds(Square(values[0]), values[0], SumSquares(values[1..]), Sum(values[1..]));
    }
  }

  /** The squared norm has the parity of the token count, so a text with an odd
      number of tokens is never rejected for a zero norm. */
  lemma OddCountsSurvive(hash: Hash, tokens: seq<string>, values: seq<int>)
    requires IsRaw(hash, tokens, values)
    ensures SumSquares(values) % 2 == |tokens| % 2
    ensures |tokens| % 2 == 1 ==> SumSquares(values) > 0
  {
    SumParity(hash, tokens, values);
    SquaresParity(values);
  }

  /** The norm is zero exactly when every bucket cancels out. */
  lemma {:induction false} ZeroNormExactly(values: seq<int>)
    ensures SumSquares(values) == 0 <==> forall i | 0 <= i < |values| :: values[i] == 0
    decreases |values|
  {
    if values != [] {
      ZeroNormExactly(values[1..]);
      assert Square(values[0]) == 0 <==> values[0] == 0;
      assert forall i | 1 <= i < |values| :: values[i] == values[1..][i - 1];
    }
  }

  /** Exactly when a text with terms is rejected: in every bucket as many of its
      terms count up as count down. */
  lemma RejectedExactly(hash: Hash, sqrt: Root, text: string, tokens: seq<string>)
    requires IsRoot(sqrt) && Strip(text) != "" && |text| <= MAXIMUM_TEXT && tokens != []
    ensures Embedding(hash, sqrt, text, tokens) == Err(NormalizationFailed)
            <==> forall i: nat | i < DIMENSION :: |Votes(hash, tokens, i, true)| == |Votes(hash, tokens, i, false)|
    ensures Embedding(hash, sqrt, text, tokens).Err? ==>
              Embedding(hash, sqrt, text, tokens) == Err(NormalizationFailed) && |tokens| % 2 == 0
  {
    var values := Raw(hash, tokens);
    ZeroNormExactly(values);
    NormPositive(SumSquares(values), sqrt(SumSquares(values)));
    OddCountsSurvive(hash, tokens, values);
    forall i: nat | i < DIMENSION
      ensures values[i] == 0 <==> |Votes(hash, tokens, i, true)| == |Votes(hash, tokens, i, false)|
    {
      RawCountsVotes(hash, tokens, i);
    }
  }

  /** Every embedding is a unit vector of the provider's width. */
  lemma EmbeddingIsUnit(hash: Hash, sqrt: Root, text: string, tokens: seq<string>)
    requires IsRoot(sqrt) && Embedding(hash, sqrt, text, tokens).Ok?
    ensures
      var v := Embedding(hash, sqrt, text, tokens).value;
      |v| == DIMENSION && Unit(v)
  {
    var values := Raw(hash, tokens);
    ScaledUnit(values, sqrt(SumSquares(values)));
  }

  /** A text of two tokens is rejected exactly when they share a bucket and have
      opposite signs. */
  lemma CollidingPairRejected(hash: Hash, a: string, b: string, values: seq<int>)
    requires IsRaw(hash, [a, b], values)
    ensures SumSquares(values) == 0 <==> Bucket(hash(a)) == Bucket(hash(b)) && Sign(hash(a)) != Sign(hash(b))
  {
    forall i: nat ensures RawAt(hash, [a, b], i)
                          == (if Bucket(hash(a)) == i then Sign(hash(a)) else 0)
                             + if Bucket(hash(b)) == i then Sign(hash(b)) else 0
    {
      assert [a, b] == [a] + [b];
      RawConcat(hash, [a], [b], i);
      assert [a][1..] == [] && [b][1..] == [];
    }
    ZeroNormExactly(values);
    assert values[Bucket(hash(a))] == RawAt(hash, [a, b], Bucket(hash(a)));
  }

  // ------------------------------------------- the coordinates, spelled out

  /** The terms whose digest number falls on coordinate `i` of 256 and whose ninth
      digest byte is even (or odd). */
  function Positions(hash: Hash, tokens: seq<string>, i: nat, even: bool): set<nat> {
    set k: nat | k < |tokens| && hash(tokens[k]).head % 256 == i && (hash(tokens[k]).ninth % 2 == 0) == even
  }

  lemma VotesArePositions(hash: Hash, tokens: seq<string>, i: nat, even: bool)
    ensures Votes(hash, tokens, i, even) == Positions(hash, tokens, i, even)
  {
  }

  lemma QuotientTimes(x: int, norm: real)
    requires norm > 0.0
    ensures Times(x as real / norm, norm) == x as real
  {
  }

  /** Coordinate `i` of an embedding, times the norm, is the number of its terms
      with an even ninth byte less the number of those with an odd one. */
  lemma CoordinateMeaning(hash: Hash, sqrt: Root, text: string, tokens: seq<string>, i: nat) returns (norm: real)
    requires Embedding(hash, sqrt, text, tokens).Ok? && i < 256
    ensures norm == sqrt(SumSquares(Raw(hash, tokens))) && norm > 0.0
    ensures
      var v := Embedding(hash, sqrt, text, tokens).value;
      && |v| == 256
      && Times(v[i], norm) == (|Positions(hash, tokens, i, true)| - |Positions(hash, tokens, i, false)|) as real
  {
    norm := sqrt(SumSquares(Raw(hash, tokens)));
    RawCountsVotes(hash, tokens, i);
    VotesArePositions(hash, tokens, i, true);
    VotesArePositions(hash, tokens, i, false);
    QuotientTimes(Raw(hash, tokens)[i], norm);
  }

  /** Which texts are rejected before any counting. */
  lemma TextFailures(hash: Hash, sqrt: Root, text: string, tokens: seq<string>)
    ensures
      var result := Embedding(hash, sqrt, text, tokens);
      if forall k | 0 <= k < |text| :: IsSpace(text[k]) then result == Err(EmptyText)
      else if |text| > 16_000 then result == Err(TextTooLong)
      else if tokens == [] then result == Err(NoIndexableTerms)
      else result.Err? ==> result == Err(NormalizationFailed)
  {
  }

  // ------------------------------------------------------------ the cosine

  lemma PositiveProduct(x: real, y: real)
    requires (x > 0.0 && y > 0.0) || (x < 0.0 && y < 0.0)
    ensures Times(x, y) > 0.0
  {
  }

  lemma SquareSign(x: real)
    ensures Times(x, x) > 0.0 <==> x != 0.0
    ensures Times(x, x) == 0.0 <==> x == 0.0
  {
    if x == 0.0 {
      assert Times(0.0, 0.0) == 0.0;
    } else {
      PositiveProduct(x, x);
    }
  }

  lemma NormPositive(squares: nat, norm: real)
    requires norm >= 0.0 && Times(norm, norm) == squares as real
    ensures norm > 0.0 <==> squares > 0
  {
    SquareSign(norm);
  }

  lemma SquareOfQuotient(q: real, x: int, norm: real)
    requires Times(q, norm) == x as real
    ensures Times(Times(q, q), Times(norm, norm)) == Square(x) as real
  {
    var r := x as real;
    assert (q * q) * (norm * norm) == (q * norm) * (q * norm);
    assert r * r == (x * x) as real;
  }

  lemma Distribute(a: real, b: real, y: real)
    ensures Times(a + b, y) == Times(a, y) + Times(b, y)
  {
  }

  lemma {:induction false} ScaledDot(values: seq<int>, norm: real, y: real)
    requires norm > 0.0 && y == Times(norm, norm)
    ensures Times(Dot(Scaled(values, norm), Scaled(values, norm)), y) == SumSquares(values) as real
    decreases |values|
  {
    if values == [] {
      assert Times(0.0, y) == 0.0;
    } else {
      var q, rest := values[0] as real / norm, Scaled(values[1..], norm);
      assert Times(q, norm) == values[0] as real;
      SquareOfQuotient(q, values[0], norm);
      assert Scaled(values, norm)[1..] == rest;
      ScaledDot(values[1..], norm, y);
      Distribute(Times(q, q), Dot(rest, rest), y);
    }
  }

  lemma UnitFactor(x: real, y: real)
    requires y > 0.0 && Times(x, y) == y
    ensures x == 1.0
  {
    if x > 1.0 {
      PositiveProduct(x - 1.0, y);
      Distribute(x - 1.0, 1.0, y);
    } else if x < 1.0 {
      PositiveProduct(1.0 - x, y);
      Distribute(1.0 - x, x, y);
    }
  }

  lemma ScaledUnit(values: seq<int>, norm: real)
    requires norm > 0.0 && Times(norm, norm) == SumSquares(values) as real
    ensures Unit(Scaled(values, norm))
  {
    SquareSign(norm);
    ScaledDot(values, norm, Times(norm, norm));
    UnitFactor(Dot(Scaled(values, norm), Scaled(values, norm)), Times(norm, norm));
  }

  function Distance(a: seq<real>, b: seq<real>): real
    requires |a| == |b|
  {
    if a == [] then 0.0 else Times(a[0] - b[0], a[0] - b[0]) + Distance(a[1..], b[1..])
  }

  function Spread(a: seq<real>, b: seq<real>): real
    requires |a| == |b|
  {
    if a == [] then 0.0 else Times(a[0] + b[0], a[0] + b[0]) + Spread(a[1..], b[1..])
  }

  lemma Binomials(x: real, y: real)
    ensures Times(x - y, x - y) == Times(x, x) - 2.0 * Times(x, y) + Times(y, y)
    ensures Times(x + y, x + y) == Times(x, x) + 2.0 * Times(x, y) + Times(y, y)
  {
    assert (x - y) * (x - y) == x * x - 2.0 * (x * y) + y * y;
    assert (x + y) * (x + y) == x * x + 2.0 * (x * y) + y * y;
  }

  lemma {:induction false} Polarization(a: seq<real>, b: seq<real>)
    requires |a| == |b|
    ensures Distance(a, b) == Dot(a, a) - 2.0 * Dot(a, b) + Dot(b, b) >= 0.0
    ensures Spread(a, b) == Dot(a, a) + 2.0 * Dot(a, b) + Dot(b, b) >= 0.0
    ensures Distance(a, b) == 0.0 <==> a == b
    decreases |a|
  {
    if a != [] {
      Binomials(a[0], b[0]);
      SquareSign(a[0] - b[0]);
      SquareSign(a[0] + b[0]);
      Polarization(a[1..], b[1..]);
      assert a == [a[0]] + a[1..] && b == [b[0]] + b[1..];
    }
  }

  /** Cauchy-Schwarz for unit vectors: the upper clamp of the similarity never
      fires, it is one exactly for equal vectors, and the order of arguments
      does not matter. */
  lemma UnitCosine(a: seq<real>, b: seq<real>)
    requires |a| == DIMENSION == |b| && Unit(a) && Unit(b)
    ensures -1.0 <= Dot(a, b) <= 1.0
    ensures CosineSimilarity(a, b) == Ok(if Dot(a, b) > 0.0 then Dot(a, b) else 0.0)
    ensures CosineSimilarity(a, b) == Ok(1.0) <==> a == b
    ensures CosineSimilarity(a, b) == CosineSimilarity(b, a)
  {
    Polarization(a, b);
    Polarization(b, a);
    DotSymmetric(a, b);
  }

  /** The similarity is the inner product between 0 and 1, for two vectors of the
      provider's width only. */
  lemma CosineMeaning(a: seq<real>, b: seq<real>)
    ensures |a| != 256 || |b| != 256 ==> CosineSimilarity(a, b) == Err(DimensionMismatch)
    ensures |a| == 256 == |b| ==>
              && CosineSimilarity(a, b).Ok?
              && var score := CosineSimilarity(a, b).value;
                 && 0.0 <= score <= 1.0
                 && (0.0 <= Dot(a, b) <= 1.0 ==> score == Dot(a, b))
                 && (Dot(a, b) < 0.0 ==> score == 0.0) && (Dot(a, b) > 1.0 ==> score == 1.0)
  {
  }

  lemma {:induction false} DotSymmetric(a: seq<real>, b: seq<real>)
    requires |a| == |b|
    ensures Dot(a, b) == Dot(b, a)
    decreases |a|
  {
    if a != [] {
      assert Times(a[0], b[0]) == Times(b[0], a[0]);
      DotSymmetric(a[1..], b[1..]);
    }
  }
}
