/** Assessment of one claim: a relation per passage read, and an overall label computed from them. */
module Assessing {
  import opened Wrappers
  import opened Reports

  datatype Label = Supports | Challenges | Qualifies | Context | CannotAssess

  datatype Retraction = NotRetracted | Retracted | Withdrawn | UnknownRetraction

  datatype Passage = Passage(passageId: string, evidenceId: string, origin: string, retraction: Retraction)

  datatype Item = Item(passageId: string, relation: Label)

  /** What the router does with the passages of one claim, after its own repairs. */
  datatype Reply = Answered(items: seq<Item>) | NoBudget | NoAnswer

  datatype Retrieval = Retrieved(claimId: string, passages: seq<Passage>) | Unassessed(claimId: string, reason: string)

  datatype Outcome = Outcome(claimId: string, assessment: Option<Assessment>, evidence: seq<Evidence>,
                             reason: Option<string>)

  function RelationOf(given: Label): Relation {
    match given
    case Supports => Support
    case Challenges => Challenge
    case Qualifies => Qualify
    case Context => Insufficient
    case CannotAssess => Insufficient
  }

  // ----- The overall label -----

  /** Some pair of the list has this relation. */
  predicate Has(pairs: seq<(Relation, string)>, relation: Relation) {
    exists k :: 0 <= k < |pairs| && pairs[k].0 == relation
  }

  /** Mixed when sources pull both ways, otherwise the strongest of challenge, qualify and support;
      insufficient when no source settles anything. */
  function Verdict(support: bool, challenge: bool, qualify: bool, mixed: bool): Overall {
    if mixed || (challenge && (support || qualify)) then MixedEvidence
    else if challenge then Challenged
    else if qualify then Qualified
    else if support then Supported
    else InsufficientEvidence
  }

  lemma HasStep(pairs: seq<(Relation, string)>, k: nat, r: Relation)
    requires k < |pairs|
    ensures Has(pairs[..k + 1], r) <==> Has(pairs[..k], r) || r == pairs[k].0
  {
    var before, after := pairs[..k], pairs[..k + 1];
    assert after == before + [pairs[k]];
    if Has(before, r) {
      var i :| 0 <= i < |before| && before[i].0 == r;
      assert after[i].0 == r;
    }
    if r == pairs[k].0 { assert after[k].0 == r; }
    if Has(after, r) && r != pairs[k].0 {
      var i :| 0 <= i < |after| && after[i].0 == r;
      assert before[i].0 == r;
    }
  }

  /** What each label says about the relations of the passages. */
  ghost predicate LabelFits(given: Overall, found: set<Relation>) {
    && (given == Supported <==> Support in found && found <= {Support, Insufficient})
    && (given == Challenged <==> Challenge in found && found <= {Challenge, Insufficient})
    && (given == Qualified <==> Qualify in found && Challenge !in found && Mixed !in found)
    && (given == MixedEvidence <==> Mixed in found || (Challenge in found && (Support in found || Qualify in found)))
    && (given == InsufficientEvidence <==> found <= {Insufficient})
  }

  lemma VerdictFits(found: set<Relation>)
    ensures LabelFits(Verdict(Support in found, Challenge in found, Qualify in found, Mixed in found), found)
  {
    forall r | r in found ensures r in {Support, Challenge, Qualify, Mixed, Insufficient} {
      match r case Support => case Challenge => case Qualify => case Mixed => case Insufficient =>
    }
  }

  ghost function Found(pairs: seq<(Relation, string)>): (found: set<Relation>)
    ensures forall r :: r in found <==> Has(pairs, r)
  {
    assert forall r :: Has(pairs, r) ==> exists p :: p in pairs && p.0 == r;
    set p | p in pairs :: p.0
  }

  method OverallLabel(pairs: seq<(Relation, string)>) returns (given: Overall)
    ensures LabelFits(given, Found(pairs))
    ensures given == Verdict(Has(pairs, Support), Has(pairs, Challenge), Has(pairs, Qualify), Has(pairs, Mixed))
    ensures given == InsufficientEvidence <==> forall k :: 0 <= k < |pairs| ==> pairs[k].0 == Insufficient
  {
    var origins: map<Relation, set<string>> := map[];
    for k := 0 to |pairs|
      invariant forall r :: r in origins <==> Has(pairs[..k], r)
      invariant forall r :: r in origins ==> origins[r] != {}
    {
      var (relation, origin) := pairs[k];
      forall r ensures Has(pairs[..k + 1], r) <==> Has(pairs[..k], r) || r == relation { HasStep(pairs, k, r); }
      origins := origins[relation := (if relation in origins then origins[relation] else {}) + {origin}];
    }
    assert pairs[..|pairs|] == pairs;
    given := Verdict(Support in origins, Challenge in origins, Qualify in origins, Mixed in origins);
    VerdictFits(Found(pairs));
  }

  // ----- The reply -----

  datatype ReplyError = UnknownPassage | RepeatedPassage | MissingPassage

  predicate DistinctItems(items: seq<Item>) {
    forall a, b :: 0 <= a < b < |items| ==> items[a].passageId != items[b].passageId
  }

  predicate Offered(passages: seq<Passage>, id: string) {
    exists p :: 0 <= p < |passages| && passages[p].passageId == id
  }

  predicate Answers(items: seq<Item>, id: string) {
    exists i :: 0 <= i < |items| && items[i].passageId == id
  }

  ghost predicate AllAnswered(passages: seq<Passage>, items: seq<Item>) {
    forall p :: 0 <= p < |passages| ==> Answers(items, passages[p].passageId)
  }

  ghost predicate AllOffered(passages: seq<Passage>, items: seq<Item>) {
    forall i :: 0 <= i < |items| ==> Offered(passages, items[i].passageId)
  }

  /** A reply is accepted exactly when its items and the passages name each other one to one. */
  function CheckReply(passages: seq<Passage>, items: seq<Item>): (error: Option<ReplyError>)
    ensures error.None? <==> DistinctItems(items) && AllOffered(passages, items) && AllAnswered(passages, items)
  {
    if exists i :: 0 <= i < |items| && !Offered(passages, items[i].passageId) then Some(UnknownPassage)
    else if !DistinctItems(items) then Some(RepeatedPassage)
    else if exists p :: 0 <= p < |passages| && !Answers(items, passages[p].passageId) then Some(MissingPassage)
    else None
  }

  // ----- One claim -----

  function LabelFor(items: seq<Item>, passageId: string): (given: Label)
    requires Answers(items, passageId)
    ensures DistinctItems(items) ==> Item(passageId, given) in items
  {
    if items[|items| - 1].passageId == passageId then items[|items| - 1].relation
    else
      assert items[..|items| - 1] + [items[|items| - 1]] == items;
      LabelFor(items[..|items| - 1], passageId)
  }

  /** A retracted or withdrawn source is listed but never counts. */
  predicate Counts(passage: Passage) {
    passage.retraction != Retracted && passage.retraction != Withdrawn
  }

  function CountedRelation(passage: Passage, given: Label): Relation {
    if Counts(passage) then RelationOf(given) else Insufficient
  }

  function EvidenceOf(claimId: string, passages: seq<Passage>): (evidence: seq<Evidence>)
    ensures |evidence| == |passages|
    ensures forall k :: 0 <= k < |passages| ==>
              evidence[k] == Evidence(passages[k].evidenceId, claimId, passages[k].origin)
  {
    seq(|passages|, k requires 0 <= k < |passages| => Evidence(passages[k].evidenceId, claimId, passages[k].origin))
  }

  /** The label a list of relations calls for. */
  function VerdictOf(relations: seq<EvidenceRelation>): Overall {
    Verdict(Holds(relations, Support), Holds(relations, Challenge), Holds(relations, Qualify), Holds(relations, Mixed))
  }

  predicate Holds(relations: seq<EvidenceRelation>, r: Relation) {
    exists k :: 0 <= k < |relations| && relations[k].relation == r
  }

  /** One relation per passage, in order, each citing the evidence made from that passage. */
  ghost predicate Related(relations: seq<EvidenceRelation>, passages: seq<Passage>, items: seq<Item>) {
    && |relations| == |passages|
    && forall k :: 0 <= k < |relations| ==>
         relations[k].evidenceId == passages[k].evidenceId && Judged(relations[k].relation, passages[k], items)
  }

  ghost predicate Judged(relation: Relation, passage: Passage, items: seq<Item>) {
    exists given :: Item(passage.passageId, given) in items && relation == CountedRelation(passage, given)
  }

  /** The outcome of a claim that was assessed. */
  ghost predicate Assessed(o: Outcome, retrieval: Retrieval, items: seq<Item>, id: string, version: nat, provisional: bool)
    requires retrieval.Retrieved?
  {
    && o.assessment.Some? && o.claimId == retrieval.claimId && o.reason == None
    && o.evidence == EvidenceOf(retrieval.claimId, retrieval.passages)
    && var a := o.assessment.value;
       && a.id == id && a.claimId == retrieval.claimId && a.version == version && a.provisional == provisional
       && Related(a.relations, retrieval.passages, items) && a.overall == VerdictOf(a.relations)
  }

  method Relate(passages: seq<Passage>, items: seq<Item>)
    returns (relations: seq<EvidenceRelation>, pairs: seq<(Relation, string)>)
    requires DistinctItems(items) && AllAnswered(passages, items)
    ensures Related(relations, passages, items)
    ensures |pairs| == |relations| && forall k :: 0 <= k < |pairs| ==> pairs[k].0 == relations[k].relation
  {
    relations, pairs := [], [];
    for k := 0 to |passages|
      invariant Related(relations, passages[..k], items)
      invariant |pairs| == k && forall j :: 0 <= j < k ==> pairs[j].0 == relations[j].relation
    {
      var given := LabelFor(items, passages[k].passageId);
      var relation := CountedRelation(passages[k], given);
      assert Judged(relation, passages[k], items);
      assert passages[..k + 1] == passages[..k] + [passages[k]];
      relations := relations + [EvidenceRelation(passages[k].evidenceId, relation)];
      pairs := pairs + [(relation, passages[k].origin)];
    }
    assert passages[..|passages|] == passages;
  }

  /** The router gave this label to a passage whose source is neither retracted nor withdrawn. */
  ghost predicate Said(passages: seq<Passage>, items: seq<Item>, given: Label) {
    exists p :: p in passages && p.retraction != Retracted && p.retraction != Withdrawn && Item(p.passageId, given) in items
  }

  /** The assessment, in the router's own words: the relation of every passage, and the overall label. */
  ghost predicate SaysTheSame(a: Assessment, passages: seq<Passage>, items: seq<Item>) {
    && |a.relations| == |passages|
    && (forall k :: 0 <= k < |passages| ==> RelationFits(a.relations[k].relation, passages[k], items))
    && var supports, challenges, qualifies :=
         Said(passages, items, Supports), Said(passages, items, Challenges), Said(passages, items, Qualifies);
       && (a.overall == Supported <==> supports && !challenges && !qualifies)
       && (a.overall == Challenged <==> challenges && !supports && !qualifies)
       && (a.overall == Qualified <==> qualifies && !challenges)
       && (a.overall == MixedEvidence <==> challenges && (supports || qualifies))
       && (a.overall == InsufficientEvidence <==> !supports && !challenges && !qualifies)
  }

  ghost predicate RelationFits(relation: Relation, passage: Passage, items: seq<Item>) {
    var listedOnly := passage.retraction == Retracted || passage.retraction == Withdrawn;
    && (relation == Support <==> !listedOnly && Item(passage.passageId, Supports) in items)
    && (relation == Challenge <==> !listedOnly && Item(passage.passageId, Challenges) in items)
    && (relation == Qualify <==> !listedOnly && Item(passage.passageId, Qualifies) in items)
    && relation != Mixed
  }

  /** In a list of distinct items a passage has one label. */
  lemma OneLabel(items: seq<Item>, a: Item, b: Item)
    requires DistinctItems(items) && a in items && b in items && a.passageId == b.passageId
    ensures a == b
  {
    var i :| 0 <= i < |items| && items[i] == a;
    var j :| 0 <= j < |items| && items[j] == b;
  }

  lemma JudgedFits(relation: Relation, passage: Passage, items: seq<Item>)
    requires DistinctItems(items) && Judged(relation, passage, items)
    ensures RelationFits(relation, passage, items)
  {
    var given :| Item(passage.passageId, given) in items && relation == CountedRelation(passage, given);
    forall other | Item(passage.passageId, other) in items ensures other == given {
      OneLabel(items, Item(passage.passageId, other), Item(passage.passageId, given));
    }
  }

  lemma SaidIsFound(a: Assessment, passages: seq<Passage>, items: seq<Item>, r: Relation, given: Label)
    requires |a.relations| == |passages|
    requires forall k :: 0 <= k < |passages| ==> RelationFits(a.relations[k].relation, passages[k], items)
    requires (r == Support && given == Supports) || (r == Challenge && given == Challenges) || (r == Qualify && given == Qualifies)
    ensures Said(passages, items, given) <==> Holds(a.relations, r)
  {
    if k :| 0 <= k < |a.relations| && a.relations[k].relation == r {
      assert RelationFits(a.relations[k].relation, passages[k], items) && passages[k] in passages;
    }
    if Said(passages, items, given) {
      var p :| p in passages && p.retraction != Retracted && p.retraction != Withdrawn && Item(p.passageId, given) in items;
      var k :| 0 <= k < |passages| && passages[k] == p;
      assert RelationFits(a.relations[k].relation, passages[k], items);
    }
  }

  lemma AssessedSays(a: Assessment, passages: seq<Passage>, items: seq<Item>)
    requires DistinctItems(items) && Related(a.relations, passages, items) && a.overall == VerdictOf(a.relations)
    ensures SaysTheSame(a, passages, items)
  {
    hide Judged, RelationFits, Said;
    forall k | 0 <= k < |passages|
      ensures RelationFits(a.relations[k].relation, passages[k], items) && a.relations[k].relation != Mixed
    {
      JudgedFits(a.relations[k].relation, passages[k], items);
      NeverMixed(a.relations[k].relation, passages[k], items);
    }
    SaidIsFound(a, passages, items, Support, Supports);
    SaidIsFound(a, passages, items, Challenge, Challenges);
    SaidIsFound(a, passages, items, Qualify, Qualifies);
  }

  lemma NeverMixed(relation: Relation, passage: Passage, items: seq<Item>)
    requires RelationFits(relation, passage, items)
    ensures relation != Mixed
  {
  }

  lemma SameVerdict(pairs: seq<(Relation, string)>, relations: seq<EvidenceRelation>)
    requires |pairs| == |relations| && forall k :: 0 <= k < |pairs| ==> pairs[k].0 == relations[k].relation
    ensures forall r :: Has(pairs, r) <==> Holds(relations, r)
  {
  }

  lemma IsAssessed(o: Outcome, retrieval: Retrieval, items: seq<Item>, id: string, version: nat, provisional: bool)
    requires retrieval.Retrieved? && DistinctItems(items) && o.assessment.Some?
    requires var a := o.assessment.value;
             && Related(a.relations, retrieval.passages, items) && a.overall == VerdictOf(a.relations)
             && a.id == id && a.claimId == retrieval.claimId && a.version == version && a.provisional == provisional
    requires o == Outcome(retrieval.claimId, o.assessment, EvidenceOf(retrieval.claimId, retrieval.passages), None)
    ensures Assessed(o, retrieval, items, id, version, provisional)
    ensures SaysTheSame(o.assessment.value, retrieval.passages, items)
  {
    hide Related, SaysTheSame, DistinctItems, VerdictOf;
    AssessedSays(o.assessment.value, retrieval.passages, items);
  }

  method Assess(retrieval: Retrieval, reply: Reply, id: string, version: nat, provisional: bool) returns (o: Outcome)
    ensures o.claimId == retrieval.claimId
    ensures o.assessment.Some? <==>
            retrieval.Retrieved?
            && (retrieval.passages == [] || (reply.Answered? && CheckReply(retrieval.passages, reply.items).None?))
    ensures o.assessment.Some? ==>
              var items := if retrieval.passages == [] then [] else reply.items;
              && Assessed(o, retrieval, items, id, version, provisional)
              && SaysTheSame(o.assessment.value, retrieval.passages, items)
    ensures o.assessment.None? ==> o.evidence == [] && o.reason.Some?
  {
    if retrieval.Unassessed? {
      return Outcome(retrieval.claimId, None, [], Some(retrieval.reason));
    }
    var passages := retrieval.passages;
    var items: seq<Item> := [];
    if passages != [] {
      if reply.NoBudget? {
        return Outcome(retrieval.claimId, None, [], Some("llm_budget_exhausted"));
      }
      if reply.NoAnswer? || CheckReply(passages, reply.items).Some? {
        return Outcome(retrieval.claimId, None, [], Some("assessment_unavailable"));
      }
      items := reply.items;
    }
    hide Related, Assessed, SaysTheSame, LabelFits, Has, DistinctItems, AllAnswered, AllOffered, Verdict;
    var relations, pairs := Relate(passages, items);
    var overall := OverallLabel(pairs);
    SameVerdict(pairs, relations);
    var assessment := Assessment(id, retrieval.claimId, version, relations, overall, provisional);
    o := Outcome(retrieval.claimId, Some(assessment), EvidenceOf(retrieval.claimId, passages), None);
    IsAssessed(o, retrieval, items, id, version, provisional);
  }

  /** What the router says about retracted and withdrawn sources makes no difference: two replies
      that agree on the other passages give the same relations and the same label. */
  lemma RetractedNeverCounts(retrieval: Retrieval, first: seq<Item>, second: seq<Item>, o: Outcome, p: Outcome,
                             id: string, version: nat, provisional: bool)
    requires retrieval.Retrieved? && DistinctItems(first) && DistinctItems(second)
    requires Assessed(o, retrieval, first, id, version, provisional)
    requires Assessed(p, retrieval, second, id, version, provisional)
    requires forall passage, given :: passage in retrieval.passages && Counts(passage) ==>
               (Item(passage.passageId, given) in first <==> Item(passage.passageId, given) in second)
    ensures o == p
  {
    var a, b := o.assessment.value.relations, p.assessment.value.relations;
    forall k | 0 <= k < |a| ensures a[k] == b[k] {
      var passage := retrieval.passages[k];
      assert Judged(a[k].relation, passage, first) && Judged(b[k].relation, passage, second);
      if Counts(passage) {
        var x :| Item(passage.passageId, x) in first && a[k].relation == CountedRelation(passage, x);
        var y :| Item(passage.passageId, y) in second && b[k].relation == CountedRelation(passage, y);
        assert Item(passage.passageId, y) in first;
      }
    }
    assert a == b;
  }

  /** The label abstains exactly when no passage that counts says anything. */
  lemma AbstainsWhenNothingCounts(relations: seq<EvidenceRelation>)
    ensures VerdictOf(relations) == InsufficientEvidence <==>
            forall k :: 0 <= k < |relations| ==> relations[k].relation == Insufficient
  {
    if k :| 0 <= k < |relations| && relations[k].relation != Insufficient {
      assert relations[k].relation in {Support, Challenge, Qualify, Mixed};
    }
  }
}
