/** Okapi BM25 over the candidates alone: the score of each document for the terms of a claim, and the
    ranking by score. The logarithm is any function that is positive above one. */
module Bm25 {
  import opened Lists

  // ----- Scores -----

  /** A logarithm: all that is used is that it is positive above one. */
  ghost predicate PositiveAboveOne(log: real -> real) {
    forall x: real :: x > 1.0 ==> log(x) > 0.0
  }

  function Frequency(document: seq<string>, term: string): (n: nat)
    ensures n == multiset(document)[term]
    ensures n > 0 <==> term in document
  {
    if document == [] then 0
    else
      assert document == [document[0]] + document[1..];
      (if document[0] == term then 1 else 0) + Frequency(document[1..], term)
  }

  /** The number of documents that hold a term. */
  function Holding(documents: seq<seq<string>>, term: string): (n: nat)
    ensures n <= |documents|
  {
    if documents == [] then 0
    else Holding(documents[..|documents| - 1], term) + (if term in documents[|documents| - 1] then 1 else 0)
  }

  function TotalLength(documents: seq<seq<string>>): nat {
    if documents == [] then 0 else |documents[0]| + TotalLength(documents[1..])
  }

  function AverageLength(documents: seq<seq<string>>): (average: real)
    requires documents != []
    ensures average > 0.0
  {
    var average := TotalLength(documents) as real / |documents| as real;
    if TotalLength(documents) == 0 then 1.0 else average
  }

  /** So many documents of one length each. */
  function Times(length: nat, count: nat): (total: nat)
    ensures total == length * count
  {
    if count == 0 then 0 else Times(length, count - 1) + length
  }

  lemma {:induction false} TotalBetween(documents: seq<seq<string>>, low: nat, high: nat)
    requires forall d :: d in documents ==> low <= |d| <= high
    ensures Times(low, |documents|) <= TotalLength(documents) <= Times(high, |documents|)
  {
    if documents != [] {
      assert documents[0] in documents;
      TotalBetween(documents[1..], low, high);
    }
  }

  lemma QuotientBetween(total: real, n: real, low: real, high: real)
    requires 0.0 < n && low * n <= total <= high * n
    ensures low <= total / n <= high
  {
    var q := total / n;
    assert q * n == total;
    assert q < low ==> q * n < low * n;
    assert q > high ==> q * n > high * n;
  }

  /** The average lies between the shortest and the longest document. */
  lemma AverageBetween(documents: seq<seq<string>>, low: nat, high: nat)
    requires documents != [] && 0 < low && forall d :: d in documents ==> low <= |d| <= high
    ensures low as real <= AverageLength(documents) <= high as real
  {
    hide TotalLength, Times;
    TotalBetween(documents, low, high);
    var n, total := |documents|, TotalLength(documents);
    assert (low * n) as real == low as real * n as real && (high * n) as real == high as real * n as real;
    assert low * n > 0;
    QuotientBetween(total as real, n as real, low as real, high as real);
  }

  /** The argument of the logarithm is above one for every term. */
  function InverseFrequency(log: real -> real, count: nat, holding: nat): real
    requires holding <= count
  {
    log(((count - holding) as real + 0.5) / (holding as real + 0.5) + 1.0)
  }

  lemma InverseFrequencyPositive(log: real -> real, count: nat, holding: nat)
    requires holding <= count && PositiveAboveOne(log)
    ensures InverseFrequency(log, count, holding) > 0.0
  {
    var x := ((count - holding) as real + 0.5) / (holding as real + 0.5);
    assert x > 0.0;
    assert x + 1.0 > 1.0;
  }

  /** What one term adds to the score of one document; K1 is 1.5 and B is 0.75. */
  function TermScore(idf: real, frequency: nat, length: nat, average: real): real
    requires average > 0.0
  {
    if frequency == 0 then 0.0
    else idf * frequency as real * 2.5 / (frequency as real + 1.5 * (0.25 + 0.75 * length as real / average))
  }

  lemma AbsentScoresNothing(idf: real, length: nat, average: real)
    requires average > 0.0
    ensures TermScore(idf, 0, length, average) == 0.0
  {
  }

  lemma TermScorePositive(idf: real, frequency: nat, length: nat, average: real)
    requires average > 0.0 && idf > 0.0 && frequency > 0
    ensures TermScore(idf, frequency, length, average) > 0.0
  {
    var below := frequency as real + 1.5 * (0.25 + 0.75 * length as real / average);
    assert 0.75 * length as real / average >= 0.0;
    assert below > 0.0;
    var above := idf * frequency as real * 2.5;
    assert idf * frequency as real > 0.0;
    assert above / below > 0.0;
  }

  lemma QuotientOrder(a: real, b: real, x: real, y: real)
    requires 0.0 < x && 0.0 < y && a * y < b * x
    ensures a / x < b / y
  {
    var p, q := a / x, b / y;
    assert p * x == a && q * y == b;
    assert (q - p) * (x * y) == b * x - a * y;
    assert x * y > 0.0;
    assert q - p <= 0.0 ==> (q - p) * (x * y) <= 0.0;
  }

  /** What divides a term's weight. */
  function Damping(frequency: nat, length: nat, average: real): (below: real)
    requires average > 0.0
    ensures below > 0.0
  {
    assert 0.75 * length as real / average >= 0.0;
    frequency as real + 1.5 * (0.25 + 0.75 * length as real / average)
  }

  lemma TimesOrder(w: real, a: real, b: real)
    requires 0.0 < w && a < b
    ensures w * a < w * b
  {
  }

  /** A share of a weight grows with its part and stays below the weight. */
  lemma ShareGrows(w: real, part: real, more: real, rest: real)
    requires 0.0 < w && 0.0 <= part < more && 0.0 < rest
    ensures w * part / (part + rest) < w * more / (more + rest) < w
  {
    var a, b := part * (more + rest), more * (part + rest);
    assert a == part * more + part * rest && b == part * more + more * rest;
    TimesOrder(rest, part, more);
    TimesOrder(w, a, b);
    assert w * part * (more + rest) == w * a && w * more * (part + rest) == w * b;
    QuotientOrder(w * part, w * more, part + rest, more + rest);
    TimesOrder(w, more, more + rest);
    QuotientOrder(w * more, w, more + rest, 1.0);
  }

  /** More occurrences of a term score more, but never two and a half times the weight of the term. */
  lemma Saturates(idf: real, frequency: nat, more: nat, length: nat, average: real)
    requires average > 0.0 && idf > 0.0 && frequency < more
    ensures TermScore(idf, frequency, length, average) < TermScore(idf, more, length, average) < 2.5 * idf
  {
    var rest := 1.5 * (0.25 + 0.75 * length as real / average);
    assert rest > 0.0 by { assert 0.75 * length as real / average >= 0.0; }
    ShareGrows(idf * 2.5, frequency as real, more as real, rest);
    ScoreIsShare(idf, frequency, length, average);
    ScoreIsShare(idf, more, length, average);
  }

  lemma ScoreIsShare(idf: real, frequency: nat, length: nat, average: real)
    requires average > 0.0
    ensures var rest := 1.5 * (0.25 + 0.75 * length as real / average);
            frequency as real + rest > 0.0
            && TermScore(idf, frequency, length, average) == idf * 2.5 * frequency as real / (frequency as real + rest)
  {
    assert 0.75 * length as real / average >= 0.0;
    assert idf * frequency as real * 2.5 == idf * 2.5 * frequency as real;
  }

  /** The same occurrences score less in a longer document. */
  lemma LengthCounts(idf: real, frequency: nat, length: nat, longer: nat, average: real)
    requires average > 0.0 && idf > 0.0 && frequency > 0 && length < longer
    ensures TermScore(idf, frequency, longer, average) < TermScore(idf, frequency, length, average)
  {
    var above := idf * frequency as real * 2.5;
    assert idf * frequency as real > 0.0;
    assert 0.75 * length as real / average < 0.75 * longer as real / average;
    var short, long := Damping(frequency, length, average), Damping(frequency, longer, average);
    assert short < long;
    assert above * (long - short) > 0.0;
    QuotientOrder(above, above, long, short);
  }

  /** In a document of average length a single occurrence scores the weight of its term, and in one twice
      as long 20 parts in 29 of it. */
  lemma SingleOccurrence(idf: real, length: nat)
    requires length > 0
    ensures TermScore(idf, 1, length, length as real) == idf
    ensures TermScore(idf, 1, 2 * length, length as real) * 29.0 == idf * 20.0
  {
    assert 0.75 * length as real / length as real == 0.75;
    assert 0.75 * (2 * length) as real / length as real == 1.5;
  }

  ghost predicate Growing(log: real -> real) {
    forall x: real, y: real :: 1.0 < x < y ==> log(x) < log(y)
  }

  /** A rarer term weighs more. */
  lemma RarerWeighsMore(log: real -> real, count: nat, rare: nat, common: nat)
    requires Growing(log) && rare < common <= count
    ensures InverseFrequency(log, count, common) < InverseFrequency(log, count, rare)
  {
    var a, x := (count - common) as real + 0.5, common as real + 0.5;
    var b, y := (count - rare) as real + 0.5, rare as real + 0.5;
    assert a * y < b * y < b * x;
    QuotientOrder(a, b, x, y);
    assert 0.0 < a / x;
  }

  /** The documents among the first n that hold a term. */
  ghost function HoldersAmong(documents: seq<seq<string>>, term: string, n: nat): set<nat>
    requires n <= |documents|
  {
    set d: nat | d < n && term in documents[d]
  }

  lemma {:induction false} HoldingCounts(documents: seq<seq<string>>, term: string, n: nat)
    requires n <= |documents|
    ensures Holding(documents[..n], term) == |HoldersAmong(documents, term, n)|
  {
    if n == 0 {
      assert HoldersAmong(documents, term, 0) == {};
    } else {
      HoldingCounts(documents, term, n - 1);
      assert documents[..n][..n - 1] == documents[..n - 1];
      var fewer := HoldersAmong(documents, term, n - 1);
      assert HoldersAmong(documents, term, n) == fewer + (if term in documents[n - 1] then {n - 1} else {});
      assert n - 1 !in fewer;
    }
  }

  function Score(log: real -> real, terms: seq<string>, documents: seq<seq<string>>, d: nat): real
    requires d < |documents|
  {
    if terms == [] then 0.0
    else
      var n := |terms| - 1;
      Score(log, terms[..n], documents, d)
      + TermScore(InverseFrequency(log, |documents|, Holding(documents, terms[n])), Frequency(documents[d], terms[n]),
                  |documents[d]|, AverageLength(documents))
  }

  predicate SharesTerm(terms: seq<string>, document: seq<string>) {
    exists i :: 0 <= i < |terms| && terms[i] in document
  }

  /** A document scores above zero exactly when it shares a term with the claim, and never below. */
  lemma {:induction false} PositiveIffShared(log: real -> real, terms: seq<string>, documents: seq<seq<string>>, d: nat)
    requires d < |documents| && PositiveAboveOne(log)
    ensures Score(log, terms, documents, d) >= 0.0
    ensures Score(log, terms, documents, d) > 0.0 <==> SharesTerm(terms, documents[d])
  {
    if terms != [] {
      var n := |terms| - 1;
      var init := terms[..n];
      PositiveIffShared(log, init, documents, d);
      InverseFrequencyPositive(log, |documents|, Holding(documents, terms[n]));
      if terms[n] in documents[d] {
        TermScorePositive(InverseFrequency(log, |documents|, Holding(documents, terms[n])), Frequency(documents[d], terms[n]),
                          |documents[d]|, AverageLength(documents));
      }
    }
  }

  /** The scores of all documents: zero throughout when the claim has no terms. */
  method Scores(log: real -> real, terms: seq<string>, documents: seq<seq<string>>) returns (scores: seq<real>)
    ensures |scores| == |documents| && forall d :: 0 <= d < |scores| ==> scores[d] == Score(log, terms, documents, d)
  {
    hide TermScore, InverseFrequency;
    if documents == [] || terms == [] {
      return seq(|documents|, _ => 0.0);
    }
    var average := AverageLength(documents);
    scores := [];
    for d := 0 to |documents|
      invariant |scores| == d && forall e :: 0 <= e < d ==> scores[e] == Score(log, terms, documents, e)
    {
      var total := 0.0;
      for t := 0 to |terms|
        invariant total == Score(log, terms[..t], documents, d)
      {
        assert terms[..t + 1][..t] == terms[..t] && terms[..t + 1][t] == terms[t];
        var frequency := Frequency(documents[d], terms[t]);
        var idf := InverseFrequency(log, |documents|, Holding(documents, terms[t]));
        AbsentScoresNothing(idf, |documents[d]|, average);
        if frequency > 0 {
          total := total + TermScore(idf, frequency, |documents[d]|, average);
        }
      }
      assert terms[..|terms|] == terms;
      scores := scores + [total];
    }
  }

  // ----- Ranking -----

  /** A document and its score. */
  datatype Ranked = Ranked(index: nat, score: real)

  predicate Better(a: Ranked, b: Ranked) {
    a.score > b.score || (a.score == b.score && a.index < b.index)
  }

  /** The documents, best first; equal scores keep their order. */
  function Rank(scores: seq<real>): seq<Ranked> {
    Sort(Numbered(scores), Better)
  }

  function Numbered(scores: seq<real>): seq<Ranked> {
    seq(|scores|, k requires 0 <= k < |scores| => Ranked(k, scores[k]))
  }

  /** By falling score; equal scores by position. */
  predicate Ordered(ranked: seq<Ranked>) {
    forall i, j :: 0 <= i < j < |ranked| ==>
      ranked[i].score > ranked[j].score || (ranked[i].score == ranked[j].score && ranked[i].index < ranked[j].index)
  }

  /** The ranking holds every document once, with its score. */
  ghost predicate Ranks(ranked: seq<Ranked>, scores: seq<real>) {
    && Ordered(ranked) && |ranked| == |scores|
    && forall r :: r in ranked <==> r.index < |scores| && r.score == scores[r.index]
  }

  lemma RankRanks(scores: seq<real>)
    ensures Ranks(Rank(scores), scores)
  {
    var numbered, ranked := Numbered(scores), Rank(scores);
    SortSorts(numbered, Better);
    SamePermutation(ranked, numbered);
    PermutedDistinct(numbered, ranked, (r: Ranked) => r.index);
    forall r ensures r in ranked <==> r.index < |scores| && r.score == scores[r.index] {
      if r.index < |scores| && r.score == scores[r.index] { assert numbered[r.index] == r; }
    }
    forall i, j | 0 <= i < j < |ranked| ensures Better(ranked[i], ranked[j]) {
      assert !Better(ranked[j], ranked[i]);
    }
  }
}
