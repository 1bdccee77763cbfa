/** Choosing the evidence sentence that answers a question. */
module Generation {
  import opened Common
  import opened Text

  const MAXIMUM_ANSWER := 1200

  /** The significant terms of a text: its tokens, case-folded, less stop words. */
  type Terms = string -> set<string>

  /** One retrieved excerpt, split at its sentence boundaries. */
  datatype Evidence = Evidence(rank: int, sentences: seq<string>)

  datatype Answer = InsufficientEvidence | Grounded(citedRank: int, sentence: string)

  datatype Candidate = Candidate(coverage: real, overlap: nat, negativeRank: int, sentence: string)

  function WordEnd(s: string, i: nat): (j: nat)
    requires i < |s|
    ensures i < j <= |s|
    decreases |s| - i
  {
    if i + 1 < |s| && !IsSpace(s[i + 1]) then WordEnd(s, i + 1) else i + 1
  }

  /** `" ".join(s.split())`. */
  function Tidy(s: string): string
    decreases |s|
  {
    var i := SkipSpace(s, 0, |s|);
    if i == |s| then ""
    else
      var j := WordEnd(s, i);
      var rest := Tidy(s[j..]);
      if rest == "" then s[i..j] else s[i..j] + " " + rest
  }

  /** Python's order on strings. */
  predicate Before(a: string, b: string) {
    if b == "" then false
    else if a == "" then true
    else if a[0] != b[0] then a[0] < b[0]
    else Before(a[1..], b[1..])
  }

  function Overlap(terms: Terms, question: set<string>, sentence: string): nat {
    |question * terms(sentence)|
  }

  function Coverage(overlap: nat, questionTerms: nat): real
    requires questionTerms > 0
  {
    overlap as real / questionTerms as real
  }

  /** The two thresholds a sentence has to meet. */
  predicate MeetsThresholds(terms: Terms, question: set<string>, sentence: string)
    requires question != {}
  {
    var overlap := Overlap(terms, question, sentence);
    && overlap >= (if |question| == 1 then 1 else 2)
    && Coverage(overlap, |question|) >= 0.5
  }

  function ToCandidate(terms: Terms, question: set<string>, rank: int, sentence: string): Candidate
    requires question != {}
  {
    var overlap := Overlap(terms, question, sentence);
    Candidate(Coverage(overlap, |question|), overlap, -rank, sentence)
  }

  /** Tuple order: coverage, then overlap, then negated rank, then text. */
  predicate Smaller(a: Candidate, b: Candidate) {
    || a.coverage < b.coverage
    || (a.coverage == b.coverage
        && (a.overlap < b.overlap
            || (a.overlap == b.overlap
                && (a.negativeRank < b.negativeRank
                    || (a.negativeRank == b.negativeRank && Before(a.sentence, b.sentence))))))
  }

  // -------------------------------------------------------- what is promised

  /** The sentences on offer, tidied, with the rank they would be cited by. */
  function Offers(evidence: seq<Evidence>): set<(int, string)> {
    set i, j | 0 <= i < |evidence| && 0 <= j < |evidence[i].sentences| ::
      (evidence[i].rank, Tidy(evidence[i].sentences[j]))
  }

  predicate Eligible(terms: Terms, question: set<string>, offer: (int, string))
    requires question != {}
  {
    offer.1 != "" && MeetsThresholds(terms, question, offer.1)
  }

  /** More overlap wins, then the lower rank, then the greater text. */
  predicate Preferred(terms: Terms, question: set<string>, a: (int, string), b: (int, string)) {
    var overlapA, overlapB := Overlap(terms, question, a.1), Overlap(terms, question, b.1);
    || overlapA > overlapB
    || (overlapA == overlapB && (a.0 < b.0 || (a.0 == b.0 && Before(b.1, a.1))))
  }

  ghost predicate Best(terms: Terms, question: set<string>, offers: set<(int, string)>, best: (int, string))
    requires question != {}
  {
    && best in offers && Eligible(terms, question, best)
    && forall other | other in offers && Eligible(terms, question, other) && other != best ::
         Preferred(terms, question, best, other)
  }

  function Bounded(sentence: string): string {
    var cut := if |sentence| > MAXIMUM_ANSWER then sentence[..MAXIMUM_ANSWER] else sentence;
    cut[..TrimSpace(cut, 0, |cut|)]
  }

  /** The answer cites the best eligible sentence, or there is none. */
  ghost predicate Answers(terms: Terms, question: set<string>, offers: set<(int, string)>, answer: Answer) {
    if question == {} then answer == InsufficientEvidence
    else
      match answer
      case InsufficientEvidence => forall offer | offer in offers :: !Eligible(terms, question, offer)
      case Grounded(rank, sentence) =>
        exists best :: Best(terms, question, offers, best) && rank == best.0 && sentence == Bounded(best.1)
  }

  // ---------------------------------------------------------------- the order

  lemma {:induction false} BeforeTotal(a: string, b: string)
    ensures a == b || Before(a, b) || Before(b, a)
    ensures !(Before(a, b) && Before(b, a))
    decreases |a|
  {
    if a != "" && b != "" {
      BeforeTotal(a[1..], b[1..]);
      assert a == [a[0]] + a[1..] && b == [b[0]] + b[1..];
    }
  }

  lemma {:induction false} BeforeTransitive(a: string, b: string, c: string)
    requires Before(a, b) && Before(b, c)
    ensures Before(a, c)
    decreases |a|
  {
    if a != "" && a[0] == b[0] == c[0] {
      BeforeTransitive(a[1..], b[1..], c[1..]);
    }
  }

  lemma CoverageOrder(a: nat, b: nat, n: nat)
    requires n > 0
    ensures Coverage(a, n) < Coverage(b, n) <==> a < b
  {
    var d := n as real;
    var x, y := Coverage(a, n), Coverage(b, n);
    assert x * d == a as real && y * d == b as real;
    if x < y {
      assert (y - x) * d > 0.0;
    } else {
      assert (x - y) * d >= 0.0;
    }
  }

  /** Comparing the tuples is preferring by overlap, rank and text. */
  lemma SmallerIsPreferred(terms: Terms, question: set<string>, a: (int, string), b: (int, string))
    requires question != {}
    ensures Smaller(ToCandidate(terms, question, a.0, a.1), ToCandidate(terms, question, b.0, b.1))
            <==> Preferred(terms, question, b, a)
  {
    CoverageOrder(Overlap(terms, question, a.1), Overlap(terms, question, b.1), |question|);
    CoverageOrder(Overlap(terms, question, b.1), Overlap(terms, question, a.1), |question|);
  }

  lemma PreferredTotal(terms: Terms, question: set<string>, a: (int, string), b: (int, string))
    ensures a == b || Preferred(terms, question, a, b) || Preferred(terms, question, b, a)
    ensures !(Preferred(terms, question, a, b) && Preferred(terms, question, b, a))
  {
    BeforeTotal(a.1, b.1);
  }

  /** The two thresholds are one: half the question's terms, rounded up, but two
      at least unless the question has a single term. */
  lemma ThresholdExactly(terms: Terms, question: set<string>, sentence: string)
    requires question != {}
    ensures
      var n := |question|;
      MeetsThresholds(terms, question, sentence)
      <==> Overlap(terms, question, sentence) >= if n == 1 then 1 else if n <= 4 then 2 else (n + 1) / 2
  {
    HalfCoverage(Overlap(terms, question, sentence), |question|);
  }

  lemma ScaledSign(x: real, d: real)
    requires d > 0.0
    ensures x * d >= 0.0 <==> x >= 0.0
  {
  }

  lemma HalfCoverage(overlap: nat, n: nat)
    requires n > 0
    ensures Coverage(overlap, n) >= 0.5 <==> 2 * overlap >= n
  {
    var x, d := Coverage(overlap, n), n as real;
    ScaledSign(x - 0.5, d);
    assert (x - 0.5) * d == overlap as real - 0.5 * d;
  }

  /** Given the sentences on offer there is exactly one right answer, so neither
      the order of the evidence nor repetitions in it matter. */
  lemma AnswerUnique(terms: Terms, question: set<string>, a: seq<Evidence>, b: seq<Evidence>,
                     answerA: Answer, answerB: Answer)
    requires Offers(a) == Offers(b)
    requires Answers(terms, question, Offers(a), answerA)
    requires Answers(terms, question, Offers(b), answerB)
    ensures answerA == answerB
  {
    if question != {} && answerA.Grounded? && answerB.Grounded? {
      var x :| Best(terms, question, Offers(a), x) && answerA.citedRank == x.0 && answerA.sentence == Bounded(x.1);
      var y :| Best(terms, question, Offers(b), y) && answerB.citedRank == y.0 && answerB.sentence == Bounded(y.1);
      PreferredTotal(terms, question, x, y);
    }
  }

  lemma ReorderedEvidenceOffersTheSame(a: seq<Evidence>, b: seq<Evidence>)
    requires multiset(a) == multiset(b)
    ensures Offers(a) == Offers(b)
  {
    OffersWithin(a, b);
    OffersWithin(b, a);
  }

  lemma OffersWithin(a: seq<Evidence>, b: seq<Evidence>)
    requires forall e | e in multiset(a) :: e in multiset(b)
    ensures Offers(a) <= Offers(b)
  {
    forall offer | offer in Offers(a) ensures offer in Offers(b) {
      var i, j :| 0 <= i < |a| && 0 <= j < |a[i].sentences| && offer == (a[i].rank, Tidy(a[i].sentences[j]));
      assert a[i] in multiset(a);
      assert a[i] in b;
      var k :| 0 <= k < |b| && b[k] == a[i];
      assert offer == (b[k].rank, Tidy(b[k].sentences[j]));
    }
  }

  // ------------------------------------------------- the answer, spelled out

  /** The question's terms that the sentence has too. */
  function Shared(terms: Terms, question: set<string>, sentence: string): set<string> {
    set w | w in question && w in terms(sentence)
  }

  /** The sentence shares at least half of the question's terms, and two of them
      unless there is only one. */
  predicate Supports(terms: Terms, question: set<string>, sentence: string) {
    var shared := |Shared(terms, question, sentence)|;
    sentence != "" && 2 * shared >= |question| && shared >= if |question| == 1 then 1 else 2
  }

  predicate At(evidence: seq<Evidence>, i: nat, j: nat) {
    i < |evidence| && j < |evidence[i].sentences|
  }

  function SentenceAt(evidence: seq<Evidence>, i: nat, j: nat): string
    requires At(evidence, i, j)
  {
    Tidy(evidence[i].sentences[j])
  }

  /** No supporting sentence shares more terms, or as many at a lower rank, or as
      many at the same rank and comes later in the order of texts. */
  ghost predicate Chosen(terms: Terms, question: set<string>, evidence: seq<Evidence>, i: nat, j: nat)
    requires At(evidence, i, j)
  {
    && Supports(terms, question, SentenceAt(evidence, i, j))
    && forall k: nat, l: nat | At(evidence, k, l) && Supports(terms, question, SentenceAt(evidence, k, l)) ::
         var best, other := |Shared(terms, question, SentenceAt(evidence, i, j))|, |Shared(terms, question, SentenceAt(evidence, k, l))|;
         || other < best
         || (other == best
             && (evidence[i].rank < evidence[k].rank
                 || (evidence[i].rank == evidence[k].rank
                     && !Before(SentenceAt(evidence, i, j), SentenceAt(evidence, k, l)))))
  }

  /** The answer is grounded exactly if some sentence supports it, and then cites
      the chosen one by its rank. */
  ghost predicate RightAnswer(terms: Terms, question: set<string>, evidence: seq<Evidence>, answer: Answer) {
    var supported := question != {}
                     && exists i: nat, j: nat :: At(evidence, i, j) && Supports(terms, question, SentenceAt(evidence, i, j));
    && (answer.Grounded? <==> supported)
    && (answer.Grounded? ==>
          exists i: nat, j: nat :: At(evidence, i, j) && Chosen(terms, question, evidence, i, j)
                                   && answer.citedRank == evidence[i].rank
                                   && answer.sentence == Bounded(SentenceAt(evidence, i, j)))
  }

  lemma OverlapIsShared(terms: Terms, question: set<string>, sentence: string)
    ensures Overlap(terms, question, sentence) == |Shared(terms, question, sentence)|
  {
    assert Shared(terms, question, sentence) == question * terms(sentence);
  }

  lemma EligibleIsSupporting(terms: Terms, question: set<string>, offer: (int, string))
    requires question != {}
    ensures Eligible(terms, question, offer) <==> Supports(terms, question, offer.1)
  {
    OverlapIsShared(terms, question, offer.1);
    HalfCoverage(Overlap(terms, question, offer.1), |question|);
  }

  lemma OfferAt(evidence: seq<Evidence>, offer: (int, string)) returns (i: nat, j: nat)
    requires offer in Offers(evidence)
    ensures At(evidence, i, j) && offer == (evidence[i].rank, SentenceAt(evidence, i, j))
  {
    i, j :| 0 <= i < |evidence| && 0 <= j < |evidence[i].sentences|
            && offer == (evidence[i].rank, Tidy(evidence[i].sentences[j]));
  }

  lemma BestIsChosen(terms: Terms, question: set<string>, evidence: seq<Evidence>, i: nat, j: nat)
    requires question != {} && At(evidence, i, j)
    requires Best(terms, question, Offers(evidence), (evidence[i].rank, SentenceAt(evidence, i, j)))
    ensures Chosen(terms, question, evidence, i, j)
  {
    var best := (evidence[i].rank, SentenceAt(evidence, i, j));
    EligibleIsSupporting(terms, question, best);
    OverlapIsShared(terms, question, best.1);
    forall k: nat, l: nat | At(evidence, k, l) && Supports(terms, question, SentenceAt(evidence, k, l))
      ensures
        var shared, other := |Shared(terms, question, best.1)|, |Shared(terms, question, SentenceAt(evidence, k, l))|;
        other < shared
        || (other == shared
            && (best.0 < evidence[k].rank
                || (best.0 == evidence[k].rank && !Before(best.1, SentenceAt(evidence, k, l)))))
    {
      var offer := (evidence[k].rank, SentenceAt(evidence, k, l));
      assert offer in Offers(evidence);
      EligibleIsSupporting(terms, question, offer);
      OverlapIsShared(terms, question, offer.1);
      BeforeTotal(best.1, offer.1);
    }
  }

  /** The right answer in terms of offers is the right one in terms of shared terms. */
  lemma AnswerMeaning(terms: Terms, question: set<string>, evidence: seq<Evidence>, answer: Answer)
    requires Answers(terms, question, Offers(evidence), answer)
    ensures RightAnswer(terms, question, evidence, answer)
  {
    if question != {} {
      if answer.Grounded? {
        var best :| Best(terms, question, Offers(evidence), best)
                    && answer.citedRank == best.0 && answer.sentence == Bounded(best.1);
        var i, j := OfferAt(evidence, best);
        BestIsChosen(terms, question, evidence, i, j);
      } else {
        forall i: nat, j: nat | At(evidence, i, j) ensures !Supports(terms, question, SentenceAt(evidence, i, j)) {
          var offer := (evidence[i].rank, SentenceAt(evidence, i, j));
          assert offer in Offers(evidence);
          EligibleIsSupporting(terms, question, offer);
        }
      }
    }
  }

  // ------------------------------------------------------------ the texts

  /** Python's order: a proper prefix comes first, otherwise the first difference decides. */
  lemma {:induction false} BeforeMeaning(a: string, b: string) returns (k: nat)
    ensures k <= |a| && k <= |b| && a[..k] == b[..k]
    ensures k < |a| && k < |b| ==> a[k] != b[k]
    ensures Before(a, b) <==> k < |b| && (k == |a| || a[k] < b[k])
    ensures k == |a| || k == |b| || (k < |a| && k < |b|)
    decreases |a|
  {
    if a == "" || b == "" || a[0] != b[0] {
      k := 0;
    } else {
      k := BeforeMeaning(a[1..], b[1..]);
      k := k + 1;
      assert a[..k] == [a[0]] + a[1..][..k - 1] && b[..k] == [b[0]] + b[1..][..k - 1];
    }
  }

  /** A cited sentence is cut at 1200 characters and loses only trailing whitespace. */
  lemma BoundedMeaning(sentence: string)
    ensures
      var cited := Bounded(sentence);
      && |cited| <= |sentence| && |cited| <= 1200 && cited == sentence[..|cited|]
      && (cited != "" ==> !IsSpace(cited[|cited| - 1]))
      && forall k | |cited| <= k < |sentence| && k < 1200 :: IsSpace(sentence[k])
  {
  }

  /** The words of a text: its runs of characters that are not whitespace. */
  function Words(s: string): seq<string> {
    if s == "" then []
    else if IsSpace(s[0]) then Words(s[1..])
    else if |s| == 1 || IsSpace(s[1]) then [[s[0]]] + Words(s[1..])
    else
      var rest := Words(s[1..]);
      if rest == [] then [[s[0]]] else [[s[0]] + rest[0]] + rest[1..]
  }

  function Spaced(words: seq<string>): string {
    if words == [] then "" else if |words| == 1 then words[0] else words[0] + " " + Spaced(words[1..])
  }

  lemma {:induction false} WordsSkipSpace(s: string, i: nat)
    requires i <= |s| && forall k | 0 <= k < i :: IsSpace(s[k])
    ensures Words(s) == Words(s[i..])
    decreases i
  {
    if i > 0 {
      WordsSkipSpace(s[1..], i - 1);
      assert s[1..][i - 1..] == s[i..];
    } else {
      assert s[0..] == s;
    }
  }

  lemma {:induction false} FirstWord(s: string, n: nat)
    requires 0 < n <= |s| && (forall k | 0 <= k < n :: !IsSpace(s[k])) && (n < |s| ==> IsSpace(s[n]))
    ensures Words(s) == [s[..n]] + Words(s[n..])
    decreases n
  {
    if n == 1 {
      assert s[..1] == [s[0]];
      if |s| == 1 { assert s[1..] == ""; }
    } else {
      FirstWord(s[1..], n - 1);
      assert s[1..][n - 1..] == s[n..];
      assert s[..n] == [s[0]] + s[1..][..n - 1];
    }
  }

  lemma {:induction false} WordEndMeaning(s: string, i: nat)
    requires i < |s| && !IsSpace(s[i])
    ensures forall k | i <= k < WordEnd(s, i) :: !IsSpace(s[k])
    ensures WordEnd(s, i) < |s| ==> IsSpace(s[WordEnd(s, i)])
    decreases |s| - i
  {
    if i + 1 < |s| && !IsSpace(s[i + 1]) {
      WordEndMeaning(s, i + 1);
    }
  }

  lemma {:induction false} NoEmptyWords(s: string)
    ensures forall w | w in Words(s) :: w != ""
    decreases |s|
  {
    if s != "" {
      NoEmptyWords(s[1..]);
      var rest := Words(s[1..]);
      forall w | w in Words(s) ensures w != "" {
        assert w in rest || w == [s[0]] || (rest != [] && w == [s[0]] + rest[0]);
      }
    }
  }

  lemma SpacedEmpty(words: seq<string>)
    requires forall w | w in words :: w != ""
    ensures Spaced(words) == "" <==> words == []
  {
    if words != [] { assert words[0] in words; }
  }

  /** Tidying a sentence keeps exactly its words, one blank apart. */
  lemma {:induction false} TidyMeaning(s: string)
    ensures Tidy(s) == Spaced(Words(s))
    decreases |s|
  {
    var i := SkipSpace(s, 0, |s|);
    WordsSkipSpace(s, i);
    if i == |s| {
      assert s[i..] == "";
    } else {
      var j := WordEnd(s, i);
      WordEndMeaning(s, i);
      var tail := s[i..];
      assert forall k | 0 <= k < j - i :: tail[k] == s[i + k];
      FirstWord(tail, j - i);
      assert tail[..j - i] == s[i..j] && tail[j - i..] == s[j..];
      TidyMeaning(s[j..]);
      NoEmptyWords(s[j..]);
      SpacedEmpty(Words(s[j..]));
      assert ([s[i..j]] + Words(s[j..]))[1..] == Words(s[j..]);
    }
  }

  // --------------------------------------------------------------- the method

  ghost predicate FromOffer(terms: Terms, question: set<string>, seen: set<(int, string)>, candidate: Candidate)
    requires question != {}
  {
    var offer := (-candidate.negativeRank, candidate.sentence);
    offer in seen && Eligible(terms, question, offer) && candidate == ToCandidate(terms, question, offer.0, offer.1)
  }

  /** Every candidate comes from an eligible offer, and every eligible offer seen
      so far is a candidate. */
  ghost predicate Collected(terms: Terms, question: set<string>, seen: set<(int, string)>, candidates: seq<Candidate>)
    requires question != {}
  {
    && (forall c | c in candidates :: FromOffer(terms, question, seen, c))
    && (forall offer | offer in seen && Eligible(terms, question, offer) ::
          ToCandidate(terms, question, offer.0, offer.1) in candidates)
  }

  lemma CollectedGrows(terms: Terms, question: set<string>, seen: set<(int, string)>, candidates: seq<Candidate>,
                       offer: (int, string))
    requires question != {} && Collected(terms, question, seen, candidates)
    ensures Collected(terms, question, seen + {offer},
                      if Eligible(terms, question, offer)
                      then candidates + [ToCandidate(terms, question, offer.0, offer.1)] else candidates)
  {
    var more := if Eligible(terms, question, offer)
                then candidates + [ToCandidate(terms, question, offer.0, offer.1)] else candidates;
    forall c | c in more ensures FromOffer(terms, question, seen + {offer}, c) {
      assert c in candidates || c == ToCandidate(terms, question, offer.0, offer.1);
    }
    assert Eligible(terms, question, offer) ==> more[|candidates|] == ToCandidate(terms, question, offer.0, offer.1);
    assert forall c | c in candidates :: c in more;
  }

  method Generate(terms: Terms, questionText: string, evidence: seq<Evidence>) returns (answer: Answer)
    ensures Answers(terms, terms(questionText), Offers(evidence), answer)
    ensures RightAnswer(terms, terms(questionText), evidence, answer)
  {
    var question := terms(questionText);
    if |evidence| == 0 || question == {} {
      AnswerMeaning(terms, question, evidence, InsufficientEvidence);
      return InsufficientEvidence;
    }
    var candidates := CollectCandidates(terms, question, evidence);
    if |candidates| == 0 {
      AnswerMeaning(terms, question, evidence, InsufficientEvidence);
      return InsufficientEvidence;
    }
    var best := MaxCandidate(candidates);
    MaximumIsBest(terms, question, Offers(evidence), candidates, best);
    AnswerMeaning(terms, question, evidence, Grounded(-best.negativeRank, Bounded(best.sentence)));
    return Grounded(-best.negativeRank, Bounded(best.sentence));
  }

  /** The loop body's decision on one tidied sentence. */
  method Consider(terms: Terms, question: set<string>, rank: int, sentence: string)
    returns (candidate: Option<Candidate>)
    requires question != {}
    ensures candidate == if Eligible(terms, question, (rank, sentence))
                         then Some(ToCandidate(terms, question, rank, sentence)) else None
  {
    var minimumOverlap := if |question| == 1 then 1 else 2;
    if sentence == "" { return None; }
    var overlap := |question * terms(sentence)|;
    var coverage := overlap as real / |question| as real;
    if overlap < minimumOverlap || coverage < 0.5 { return None; }
    return Some(Candidate(coverage, overlap, -rank, sentence));
  }

  /** The nested loops over the evidence and its sentences. */
  method CollectCandidates(terms: Terms, question: set<string>, evidence: seq<Evidence>)
    returns (candidates: seq<Candidate>)
    requires question != {}
    ensures Collected(terms, question, Offers(evidence), candidates)
  {
    candidates := [];
    ghost var seen: set<(int, string)> := {};
    for i := 0 to |evidence|
      invariant seen == Offers(evidence[..i])
      invariant Collected(terms, question, seen, candidates)
    {
      var result := evidence[i];
      ghost var before := seen;
      for j := 0 to |result.sentences|
        invariant seen == before + Offers([Evidence(result.rank, result.sentences[..j])])
        invariant Collected(terms, question, seen, candidates)
      {
        var sentence := Tidy(result.sentences[j]);
        var candidate := Consider(terms, question, result.rank, sentence);
        var grown := if candidate.Some? then candidates + [candidate.value] else candidates;
        ghost var offer := (result.rank, sentence);
        assert grown == if Eligible(terms, question, offer)
                        then candidates + [ToCandidate(terms, question, offer.0, offer.1)] else candidates;
        CollectedGrows(terms, question, seen, candidates, offer);
        OffersGrow(result, j);
        candidates, seen := grown, seen + {offer};
      }
      OffersJoin(evidence, i);
    }
    assert evidence[..|evidence|] == evidence;
  }

  lemma OffersGrow(result: Evidence, j: nat)
    requires j < |result.sentences|
    ensures Offers([Evidence(result.rank, result.sentences[..j + 1])])
            == Offers([Evidence(result.rank, result.sentences[..j])]) + {(result.rank, Tidy(result.sentences[j]))}
  {
    var a, b := [Evidence(result.rank, result.sentences[..j + 1])], [Evidence(result.rank, result.sentences[..j])];
    forall offer | offer in Offers(a)
      ensures offer in Offers(b) + {(result.rank, Tidy(result.sentences[j]))}
    {
      var i, k :| 0 <= i < |a| && 0 <= k < |a[i].sentences| && offer == (a[i].rank, Tidy(a[i].sentences[k]));
      if k < j {
        assert b[0].sentences[k] == result.sentences[k];
      }
    }
    forall offer | offer in Offers(b) + {(result.rank, Tidy(result.sentences[j]))}
      ensures offer in Offers(a)
    {
      if offer in Offers(b) {
        var i, k :| 0 <= i < |b| && 0 <= k < |b[i].sentences| && offer == (b[i].rank, Tidy(b[i].sentences[k]));
        assert a[0].sentences[k] == result.sentences[k];
      } else {
        assert a[0].sentences[j] == result.sentences[j];
      }
    }
  }

  lemma OffersJoin(evidence: seq<Evidence>, i: nat)
    requires i < |evidence|
    ensures Offers(evidence[..i + 1])
            == Offers(evidence[..i]) + Offers([Evidence(evidence[i].rank, evidence[i].sentences[..|evidence[i].sentences|])])
  {
    var whole := Evidence(evidence[i].rank, evidence[i].sentences[..|evidence[i].sentences|]);
    assert whole == evidence[i];
    var a, b, c := evidence[..i + 1], evidence[..i], [evidence[i]];
    forall offer | offer in Offers(a) ensures offer in Offers(b) + Offers(c) {
      var m, k :| 0 <= m < |a| && 0 <= k < |a[m].sentences| && offer == (a[m].rank, Tidy(a[m].sentences[k]));
      if m < i {
        assert offer == (b[m].rank, Tidy(b[m].sentences[k]));
      } else {
        assert offer == (c[0].rank, Tidy(c[0].sentences[k]));
      }
    }
    forall offer | offer in Offers(b) + Offers(c) ensures offer in Offers(a) {
      if offer in Offers(b) {
        var m, k :| 0 <= m < |b| && 0 <= k < |b[m].sentences| && offer == (b[m].rank, Tidy(b[m].sentences[k]));
        assert offer == (a[m].rank, Tidy(a[m].sentences[k]));
      } else {
        var k :| 0 <= k < |c[0].sentences| && offer == (c[0].rank, Tidy(c[0].sentences[k]));
        assert offer == (a[i].rank, Tidy(a[i].sentences[k]));
      }
    }
  }

  /** `max`: no candidate is greater. */
  method MaxCandidate(candidates: seq<Candidate>) returns (best: Candidate)
    requires candidates != []
    ensures best in candidates
    ensures forall k | 0 <= k < |candidates| :: !Smaller(best, candidates[k])
  {
    best := candidates[0];
    BeforeTotal(best.sentence, best.sentence);
    for n := 1 to |candidates|
      invariant best in candidates
      invariant forall k | 0 <= k < n :: !Smaller(best, candidates[k])
    {
      if Smaller(best, candidates[n]) {
        forall k | 0 <= k < n + 1 ensures !Smaller(candidates[n], candidates[k]) {
          SmallerOrder(best, candidates[n], candidates[k]);
        }
        best := candidates[n];
      }
    }
  }

  lemma SmallerOrder(a: Candidate, b: Candidate, c: Candidate)
    requires Smaller(a, b)
    ensures Smaller(b, c) ==> Smaller(a, c)
    ensures !Smaller(b, b)
  {
    BeforeTotal(b.sentence, b.sentence);
    if Before(a.sentence, b.sentence) && Before(b.sentence, c.sentence) {
      BeforeTransitive(a.sentence, b.sentence, c.sentence);
    }
  }

  lemma MaximumIsBest(terms: Terms, question: set<string>, offers: set<(int, string)>, candidates: seq<Candidate>,
                      best: Candidate)
    requires question != {} && Collected(terms, question, offers, candidates) && best in candidates
    requires forall k | 0 <= k < |candidates| :: !Smaller(best, candidates[k])
    ensures Best(terms, question, offers, (-best.negativeRank, best.sentence))
  {
    var chosen := (-best.negativeRank, best.sentence);
    forall other | other in offers && Eligible(terms, question, other) && other != chosen
      ensures Preferred(terms, question, chosen, other)
    {
      assert ToCandidate(terms, question, other.0, other.1) in candidates;
      SmallerIsPreferred(terms, question, chosen, other);
      PreferredTotal(terms, question, chosen, other);
    }
  }
}
