/** Word-error totals and critical entities of the benchmark scorer. */
module Scoring {
  import opened Wrappers
  import opened Alignment

  /** `wer` is absent for an empty reference. */
  datatype Counts = Counts(substitution: nat, deletion: nat, insertion: nat, referenceTokens: nat, wer: Option<real>)

  datatype Category = Negation | Number | Name | Date | Unit

  datatype Entity = Entity(category: Category, start: int, stop: int)

  datatype EntityScore = EntityScore(referenceSpans: nat, incorrectSpans: nat)

  /** How many elements of a sequence satisfy a test. */
  function CountIf<A>(s: seq<A>, test: A -> bool): nat {
    if s == [] then 0 else CountIf(s[..|s| - 1], test) + (if test(s[|s| - 1]) then 1 else 0)
  }

  const IsSubstitution := (e: Edit) => e.Substitution?
  const IsDeletion := (e: Edit) => e.Deletion?
  const IsInsertion := (e: Edit) => e.Insertion?

  // ----- Totals -----

  lemma {:induction false} CostSplits(s: seq<Edit>)
    ensures CountIf(s, IsSubstitution) + CountIf(s, IsDeletion) + CountIf(s, IsInsertion) == Cost(s)
  {
    if s != [] { CostSplits(s[..|s| - 1]); }
  }

  lemma {:induction false} LengthDifference(s: seq<Edit>, r: seq<Token>, h: seq<Token>, i: nat, j: nat)
    requires Aligns(s, r, h, i, j)
    ensures i - j == CountIf(s, IsDeletion) - CountIf(s, IsInsertion)
    ensures CountIf(s, IsSubstitution) + CountIf(s, IsDeletion) <= i
    decreases |s|
  {
    if s != [] {
      var e := s[|s| - 1];
      LengthDifference(s[..|s| - 1], r, h, if e.Insertion? then i else e.i, if e.Deletion? then j else e.j);
    }
  }

  lemma CountStep<A>(s: seq<A>, k: nat)
    requires k < |s|
    ensures forall test :: CountIf(s[..k + 1], test) == CountIf(s[..k], test) + (if test(s[k]) then 1 else 0)
  {
    assert s[..k + 1][..k] == s[..k];
  }

  lemma CountNone<A>()
    ensures forall test: A -> bool :: CountIf([], test) == 0
  {
  }

  /** The three totals are those of the one chosen script. They add up to the least number of edits
      between the texts; deletions exceed insertions by the difference in length; the rate is that
      least number per reference token. */
  method ErrorCounts(reference: seq<Token>, hypothesis: seq<Token>)
    returns (result: Result<(Counts, seq<Edit>), string>)
    ensures result.Success? <==> |reference| <= MAX_TOKENS && |hypothesis| <= MAX_TOKENS
    ensures result.Success? ==>
              var (counts, edits) := result.value;
              && edits == Script(reference, hypothesis, |reference|, |hypothesis|)
              && IsChosen(edits, reference, hypothesis)
              && counts.substitution == CountIf(edits, IsSubstitution)
              && counts.deletion == CountIf(edits, IsDeletion) && counts.insertion == CountIf(edits, IsInsertion)
              && counts.substitution + counts.deletion + counts.insertion == Errors(reference, hypothesis)
              && counts.deletion - counts.insertion == |reference| - |hypothesis|
              && counts.referenceTokens == |reference|
              && counts.wer == (if reference == [] then None
                                else Some(Errors(reference, hypothesis) as real / |reference| as real))
  {
    hide Script, CountIf, IsChosen;
    var aligned := Align(reference, hypothesis);
    if aligned.Failure? {
      return Failure(aligned.error);
    }
    var edits := aligned.value;
    var substitution, deletion, insertion := 0, 0, 0;
    CountNone<Edit>();
    for k := 0 to |edits|
      invariant substitution == CountIf(edits[..k], IsSubstitution)
      invariant deletion == CountIf(edits[..k], IsDeletion)
      invariant insertion == CountIf(edits[..k], IsInsertion)
    {
      CountStep(edits, k);
      if edits[k].Substitution? { substitution := substitution + 1; }
      if edits[k].Deletion? { deletion := deletion + 1; }
      if edits[k].Insertion? { insertion := insertion + 1; }
    }
    assert edits[..|edits|] == edits;
    CostSplits(edits);
    ScriptIsOptimal(reference, hypothesis, |reference|, |hypothesis|);
    LengthDifference(edits, reference, hypothesis, |reference|, |hypothesis|);
    var total := substitution + deletion + insertion;
    var wer := if reference == [] then None else Some(total as real / |reference| as real);
    return Success((Counts(substitution, deletion, insertion, |reference|, wer), edits));
  }

  // ----- Entity spans -----

  /** The scorer's test of one edit against the reference span start..stop. */
  predicate Spoils(e: Edit, start: int, stop: int) {
    match e
    case Equal(_, _) => false
    case Substitution(i, _) => start <= i < stop
    case Deletion(i) => start <= i < stop
    case Insertion(i, _) => start < i < stop
  }

  predicate Incorrect(edits: seq<Edit>, start: int, stop: int) {
    exists k :: 0 <= k < |edits| && Spoils(edits[k], start, stop)
  }

  /** The script keeps reference token k as hypothesis token k + shift. */
  ghost predicate Keeps(s: seq<Edit>, k: nat, shift: int) {
    k + shift >= 0 && Equal(k, k + shift) in s
  }

  /** The script keeps reference tokens start..stop as one run of hypothesis tokens. */
  ghost predicate KeptAt(s: seq<Edit>, start: nat, stop: nat, shift: int) {
    forall k :: start <= k < stop ==> Keeps(s, k, shift)
  }

  ghost predicate Kept(s: seq<Edit>, start: nat, stop: nat) {
    exists shift :: KeptAt(s, start, stop, shift)
  }

  lemma InInit(s: seq<Edit>, x: Edit)
    requires s != []
    ensures x in s <==> x in s[..|s| - 1] || x == s[|s| - 1]
  {
    if x in s {
      var k :| 0 <= k < |s| && s[k] == x;
      assert k < |s| - 1 ==> s[..|s| - 1][k] == x;
    }
  }

  lemma SpoiledInit(s: seq<Edit>, start: int, stop: int)
    requires s != []
    ensures Incorrect(s, start, stop) <==> Incorrect(s[..|s| - 1], start, stop) || Spoils(s[|s| - 1], start, stop)
  {
    var before := s[..|s| - 1];
    if Incorrect(s, start, stop) && !Spoils(s[|s| - 1], start, stop) {
      var k :| 0 <= k < |s| && Spoils(s[k], start, stop);
      assert before[k] == s[k];
    }
    if Incorrect(before, start, stop) {
      var k :| 0 <= k < |before| && Spoils(before[k], start, stop);
      assert s[k] == before[k];
    }
    if Spoils(s[|s| - 1], start, stop) {
      assert Spoils(s[|s| - 1], start, stop);
    }
  }

  /** Only the last edit can keep the token it consumes. */
  lemma KeepsInit(s: seq<Edit>, k: nat, shift: int)
    requires s != []
    ensures Keeps(s, k, shift) <==> Keeps(s[..|s| - 1], k, shift) || (k + shift >= 0 && s[|s| - 1] == Equal(k, k + shift))
  {
    if k + shift >= 0 { InInit(s, Equal(k, k + shift)); }
  }

  lemma KeepsBound(s: seq<Edit>, r: seq<Token>, h: seq<Token>, i: nat, j: nat)
    requires Aligns(s, r, h, i, j)
    ensures forall k: nat, shift :: Keeps(s, k, shift) ==> k < i && k + shift < j
  {
    AlignsBounds(s, r, h, i, j);
  }

  /** A span that ends where the script ends: unspoilt, and without insertions behind it,
      exactly when its tokens are the last ones of the hypothesis. */
  lemma {:induction false} OpenSpan(s: seq<Edit>, r: seq<Token>, h: seq<Token>, i: nat, j: nat, start: nat)
    requires Aligns(s, r, h, i, j) && start < i
    ensures !Incorrect(s, start, i + 1) <==> KeptAt(s, start, i, j - i)
    decreases |s|
  {
    var e, before := s[|s| - 1], s[..|s| - 1];
    var i', j' := if e.Insertion? then i else i - 1, if e.Deletion? then j else j - 1;
    var shift := j - i;
    AlignsBounds(before, r, h, i', j');
    KeepsBound(before, r, h, i', j');
    SpoiledInit(s, start, i + 1);
    KeepsInit(s, i - 1, shift);
    if e.Equal? {
      StopBeyond(before, start, i', i);
      StopBeyond(before, start, i', i + 1);
      if start < i - 1 { OpenSpan(before, r, h, i', j', start); }
      forall k: nat | start <= k < i - 1 ensures Keeps(s, k, shift) <==> Keeps(before, k, shift) {
        KeepsInit(s, k, shift);
      }
    }
  }

  /** Past the tokens a script has consumed, the end of a span no longer matters. */
  lemma StopBeyond(s: seq<Edit>, start: nat, i: nat, stop: nat)
    requires i < stop && forall e :: e in s ==> if e.Insertion? then e.i <= i else e.i < i
    ensures Incorrect(s, start, stop) <==> Incorrect(s, start, i + 1)
    ensures start >= i ==> !Incorrect(s, start, stop)
  {
    forall k | 0 <= k < |s|
      ensures Spoils(s[k], start, stop) <==> Spoils(s[k], start, i + 1)
      ensures start >= i ==> !Spoils(s[k], start, stop)
    {
      assert s[k] in s;
    }
  }

  /** A span is reported correct exactly when the script keeps it as one run of the hypothesis. */
  lemma {:induction false} SpanKept(s: seq<Edit>, r: seq<Token>, h: seq<Token>, i: nat, j: nat, start: nat, stop: nat)
    requires Aligns(s, r, h, i, j) && start < stop <= i
    ensures !Incorrect(s, start, stop) <==> Kept(s, start, stop)
    decreases |s|
  {
    var e, before := s[|s| - 1], s[..|s| - 1];
    if !e.Insertion? && i == stop {
      SpanAtEnd(s, r, h, i, j, start);
    } else {
      SpoiledInit(s, start, stop);
      SpanKept(before, r, h, if e.Insertion? then i else i - 1, if e.Deletion? then j else j - 1, start, stop);
      forall shift ensures KeptAt(s, start, stop, shift) <==> KeptAt(before, start, stop, shift) {
        forall k | start <= k < stop ensures Keeps(s, k, shift) <==> Keeps(before, k, shift) {
          KeepsInit(s, k, shift);
        }
      }
    }
  }

  lemma SpanAtEnd(s: seq<Edit>, r: seq<Token>, h: seq<Token>, i: nat, j: nat, start: nat)
    requires Aligns(s, r, h, i, j) && start < i && !s[|s| - 1].Insertion?
    ensures !Incorrect(s, start, i) <==> Kept(s, start, i)
  {
    hide Incorrect, Keeps;
    var e, before := s[|s| - 1], s[..|s| - 1];
    AlignsBounds(before, r, h, i - 1, if e.Deletion? then j else j - 1);
    KeepsBound(before, r, h, i - 1, if e.Deletion? then j else j - 1);
    OpenSpan(s, r, h, i, j, start);
    SpoiledInit(s, start, i);
    SpoiledInit(s, start, i + 1);
    StopBeyond(before, start, i - 1, i);
    StopBeyond(before, start, i - 1, i + 1);
    forall shift | KeptAt(s, start, i, shift) ensures shift == j - i {
      assert Keeps(s, i - 1, shift);
      KeepsInit(s, i - 1, shift);
    }
  }

  lemma KeptWord(s: seq<Edit>, r: seq<Token>, h: seq<Token>, k: nat, shift: int)
    requires Aligns(s, r, h, |r|, |h|) && Keeps(s, k, shift)
    ensures k < |r| && 0 <= k + shift < |h| && h[k + shift] == r[k]
  {
    AlignsBounds(s, r, h, |r|, |h|);
    var x :| 0 <= x < |s| && s[x] == Equal(k, k + shift);
    assert Labelled(s[x], r, h);
  }

  lemma KeptWordAt(s: seq<Edit>, r: seq<Token>, h: seq<Token>, start: nat, stop: nat, shift: int, k: nat)
    requires Aligns(s, r, h, |r|, |h|) && KeptAt(s, start, stop, shift) && start <= k < stop
    ensures k < |r| && 0 <= k + shift < |h| && h[k + shift] == r[k]
  {
    hide Aligns, Keeps;
    KeptWord(s, r, h, k, shift);
  }

  /** A kept span spells the same words in both texts. */
  lemma KeptWords(s: seq<Edit>, r: seq<Token>, h: seq<Token>, start: nat, stop: nat, shift: int)
    requires Aligns(s, r, h, |r|, |h|) && start < stop <= |r| && KeptAt(s, start, stop, shift)
    ensures 0 <= start + shift && stop + shift <= |h| && h[start + shift..stop + shift] == r[start..stop]
  {
    hide Aligns, KeptAt;
    KeptWordAt(s, r, h, start, stop, shift, start);
    KeptWordAt(s, r, h, start, stop, shift, stop - 1);
    var a, b := h[start + shift..stop + shift], r[start..stop];
    forall x: nat | x < stop - start ensures a[x] == b[x] { KeptWordAt(s, r, h, start, stop, shift, start + x); }
  }

  /** The whole statement: a span is reported correct exactly when some run of the hypothesis is
      kept for it token by token, and such a run spells the same words. */
  lemma EntityCorrect(r: seq<Token>, h: seq<Token>, start: nat, stop: nat)
    requires start < stop <= |r|
    ensures !Incorrect(Script(r, h, |r|, |h|), start, stop) <==> Kept(Script(r, h, |r|, |h|), start, stop)
    ensures forall shift :: KeptAt(Script(r, h, |r|, |h|), start, stop, shift) ==>
              0 <= start + shift && stop + shift <= |h| && h[start + shift..stop + shift] == r[start..stop]
  {
    hide Script, KeptAt, Incorrect, Kept, Aligns;
    var s := Script(r, h, |r|, |h|);
    ScriptIsOptimal(r, h, |r|, |h|);
    SpanKept(s, r, h, |r|, |h|, start, stop);
    forall shift | KeptAt(s, start, stop, shift)
      ensures 0 <= start + shift && stop + shift <= |h| && h[start + shift..stop + shift] == r[start..stop]
    {
      KeptWords(s, r, h, start, stop, shift);
    }
  }

  // ----- Entity scores -----

  predicate InRange(e: Entity, referenceTokens: nat) {
    0 <= e.start < e.stop <= referenceTokens
  }

  predicate Distinct(entities: seq<Entity>) {
    forall a, b :: 0 <= a < b < |entities| ==> entities[a] != entities[b]
  }

  function OfCategory(c: Category): Entity -> bool {
    (e: Entity) => e.category == c
  }

  /** The entities of a category that no run of the hypothesis keeps. */
  ghost function LostOf(c: Category, s: seq<Edit>): Entity -> bool {
    (e: Entity) => e.category == c && e.start >= 0 && e.stop >= 0 && !Kept(s, e.start, e.stop)
  }

  /** Every category's score counts the entities of it. */
  ghost predicate Scored(scores: map<Category, EntityScore>, entities: seq<Entity>, edits: seq<Edit>) {
    forall c: Category ::
      c in scores && scores[c] == EntityScore(CountIf(entities, OfCategory(c)), CountIf(entities, LostOf(c, edits)))
  }

  lemma NothingScored(scores: map<Category, EntityScore>, edits: seq<Edit>)
    requires scores == map[Negation := EntityScore(0, 0), Number := EntityScore(0, 0), Name := EntityScore(0, 0),
                           Date := EntityScore(0, 0), Unit := EntityScore(0, 0)]
    ensures Scored(scores, [], edits)
  {
    forall c: Category ensures c in scores {
      match c case Negation => case Number => case Name => case Date => case Unit =>
    }
  }

  lemma ScoreStep(scores: map<Category, EntityScore>, entities: seq<Entity>, k: nat, edits: seq<Edit>, lost: bool)
    requires k < |entities| && Scored(scores, entities[..k], edits)
    requires 0 <= entities[k].start && 0 <= entities[k].stop
    requires lost <==> !Kept(edits, entities[k].start, entities[k].stop)
    ensures entities[k].category in scores
    ensures var c := entities[k].category;
            Scored(scores[c := EntityScore(scores[c].referenceSpans + 1, scores[c].incorrectSpans + if lost then 1 else 0)],
                   entities[..k + 1], edits)
  {
    hide CountIf, Kept;
    CountStep(entities, k);
  }

  /** A category's counts and, when it has spans, the share of them that is incorrect. */
  datatype CategoryScore = CategoryScore(counts: EntityScore, errorRate: Option<real>)

  ghost predicate RateOf(score: CategoryScore) {
    && (score.errorRate.None? <==> score.counts.referenceSpans == 0)
    && (score.errorRate.Some? ==>
          && 0.0 <= score.errorRate.value <= 1.0
          && score.errorRate.value * score.counts.referenceSpans as real == score.counts.incorrectSpans as real)
  }

  function WithRate(score: EntityScore): CategoryScore {
    CategoryScore(score, if score.referenceSpans == 0 then None
                         else Some(score.incorrectSpans as real / score.referenceSpans as real))
  }

  ghost predicate Rated(scores: map<Category, CategoryScore>, entities: seq<Entity>, edits: seq<Edit>) {
    forall c: Category ::
      && c in scores && RateOf(scores[c])
      && scores[c].counts == EntityScore(CountIf(entities, OfCategory(c)), CountIf(entities, LostOf(c, edits)))
  }

  lemma {:induction false} CountFewer(entities: seq<Entity>, p: Entity -> bool, q: Entity -> bool)
    requires forall e :: p(e) ==> q(e)
    ensures CountIf(entities, p) <= CountIf(entities, q)
  {
    if entities != [] { CountFewer(entities[..|entities| - 1], p, q); }
  }

  lemma RateIsShare(score: EntityScore)
    requires score.incorrectSpans <= score.referenceSpans
    ensures RateOf(WithRate(score))
  {
    if score.referenceSpans > 0 {
      var rate := score.incorrectSpans as real / score.referenceSpans as real;
      assert rate * score.referenceSpans as real == score.incorrectSpans as real;
      assert rate > 1.0 ==> rate * score.referenceSpans as real > score.referenceSpans as real;
      assert rate < 0.0 ==> rate * score.referenceSpans as real < 0.0;
    }
  }

  method ScoreEntities(r: seq<Token>, h: seq<Token>, edits: seq<Edit>, entities: seq<Entity>)
    returns (result: Result<map<Category, CategoryScore>, string>)
    requires IsChosen(edits, r, h)
    ensures result.Success? <==> Distinct(entities) && forall e :: e in entities ==> InRange(e, |r|)
    ensures result.Success? ==> Rated(result.value, entities, edits)
  {
    hide Script, IsChosen, Scored, Rated, Incorrect, Kept;
    ScriptIsChosen(r, h);
    ChosenIsUnique(edits, Script(r, h, |r|, |h|), r, h);
    var none := EntityScore(0, 0);
    var scores := map[Negation := none, Number := none, Name := none, Date := none, Unit := none];
    NothingScored(scores, edits);
    var seen: set<Entity> := {};
    for k := 0 to |entities|
      invariant forall e :: e in seen <==> e in entities[..k]
      invariant Distinct(entities[..k]) && forall e :: e in entities[..k] ==> InRange(e, |r|)
      invariant Scored(scores, entities[..k], edits)
    {
      var entity := entities[k];
      assert entities[..k + 1] == entities[..k] + [entity];
      if !InRange(entity, |r|) || entity in seen {
        return Failure("invalid or duplicate reference token span");
      }
      seen := seen + {entity};
      var incorrect := Incorrect(edits, entity.start, entity.stop);
      EntityCorrect(r, h, entity.start, entity.stop);
      ScoreStep(scores, entities, k, edits, incorrect);
      var score := scores[entity.category];
      scores := scores[entity.category :=
                       EntityScore(score.referenceSpans + 1, score.incorrectSpans + if incorrect then 1 else 0)];
    }
    assert entities[..|entities|] == entities;
    ScoresRated(scores, entities, edits);
    return Success(map c | c in scores :: WithRate(scores[c]));
  }

  lemma ScoresRated(scores: map<Category, EntityScore>, entities: seq<Entity>, edits: seq<Edit>)
    requires Scored(scores, entities, edits)
    ensures Rated(map c | c in scores :: WithRate(scores[c]), entities, edits)
  {
    hide CountIf, Kept, RateOf;
    forall c | c in scores ensures RateOf(WithRate(scores[c])) {
      CountFewer(entities, LostOf(c, edits), OfCategory(c));
      RateIsShare(scores[c]);
    }
  }
}
