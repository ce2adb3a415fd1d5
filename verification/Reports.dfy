/** Report versions and the citation check that every assessed version must pass. Text written for
    readers (change summaries, notes, excerpts) is not part of this model. */
module Reports {
  import opened Wrappers
  import opened Lists

  datatype Relation = Support | Challenge | Qualify | Mixed | Insufficient

  datatype Overall = Supported | Challenged | Qualified | MixedEvidence | InsufficientEvidence

  datatype Correction = Correction(correctedAt: int, supersededProposition: string)

  datatype Claim = Claim(id: string, occurrenceId: string, originalText: string, proposition: string,
                         correction: Option<Correction>, supersededBy: Option<string>)

  datatype Evidence = Evidence(id: string, claimId: string, source: string)

  datatype EvidenceRelation = EvidenceRelation(evidenceId: string, relation: Relation)

  datatype Assessment = Assessment(id: string, claimId: string, version: nat, relations: seq<EvidenceRelation>,
                                   overall: Overall, provisional: bool)

  datatype Report = Report(id: string, investigation: string, version: nat, createdAt: int, provisional: bool,
                           supersedes: Option<string>, claims: seq<Claim>, evidence: seq<Evidence>,
                           assessments: seq<Assessment>, fixture: bool)

  /** What the next version of an investigation must carry. */
  datatype NextVersion = NextVersion(id: string, investigation: string, version: nat, supersedes: Option<string>,
                                     createdAt: int)

  // ----- Citations -----

  predicate HasClaim(claims: seq<Claim>, id: string) {
    exists k :: 0 <= k < |claims| && claims[k].id == id
  }

  const EvidenceId := (e: Evidence) => e.id
  const AssessedClaim := (a: Assessment) => a.claimId
  const ClaimId := (c: Claim) => c.id

  ghost predicate DistinctEvidence(evidence: seq<Evidence>) {
    DistinctBy(evidence, EvidenceId)
  }

  ghost predicate DistinctlyAssessed(assessments: seq<Assessment>) {
    DistinctBy(assessments, AssessedClaim)
  }

  ghost predicate DistinctClaims(claims: seq<Claim>) {
    DistinctBy(claims, ClaimId)
  }

  /** A relation cites a piece of evidence of the claim it is about. */
  ghost predicate Cites(evidence: seq<Evidence>, relation: EvidenceRelation, claimId: string) {
    exists e :: e in evidence && e.id == relation.evidenceId && e.claimId == claimId
  }

  /** One assessment that may be published in a version: about a claim of it, stamped with it, citing
      evidence of its own claim, and abstaining when it cites nothing. */
  ghost predicate SoundAssessment(a: Assessment, claims: seq<Claim>, evidence: seq<Evidence>, version: nat) {
    && HasClaim(claims, a.claimId) && a.version == version
    && (forall r :: r in a.relations ==> Cites(evidence, r, a.claimId))
    && (a.relations == [] ==> a.overall == InsufficientEvidence)
  }

  ghost predicate CitationsValid(r: Report) {
    && DistinctEvidence(r.evidence) && DistinctlyAssessed(r.assessments)
    && (forall e :: e in r.evidence ==> HasClaim(r.claims, e.claimId))
    && (forall a :: a in r.assessments ==> SoundAssessment(a, r.claims, r.evidence, r.version))
  }

  datatype CitationError =
    | DuplicateEvidence | ForeignEvidence | UnknownOrRepeatedClaim | WrongVersion | UncitedRelation | NoAbstention

  /** The evidence by identifier; shorter than the list exactly when an identifier repeats. */
  method IndexEvidence(evidence: seq<Evidence>) returns (byId: map<string, Evidence>)
    ensures |byId| == |evidence| <==> DistinctEvidence(evidence)
    ensures Indexes(byId, evidence)
  {
    hide Indexes, DistinctEvidence;
    byId := map[];
    NothingIndexed(evidence);
    for k := 0 to |evidence|
      invariant Indexes(byId, evidence[..k])
      invariant |byId| <= k && (|byId| == k <==> DistinctEvidence(evidence[..k]))
    {
      ByIdStep(evidence, k, byId);
      byId := byId[evidence[k].id := evidence[k]];
    }
    assert evidence[..|evidence|] == evidence;
  }

  lemma NothingIndexed(evidence: seq<Evidence>)
    ensures Indexes(map[], evidence[..0]) && DistinctEvidence(evidence[..0])
  {
  }

  ghost predicate Indexes(byId: map<string, Evidence>, evidence: seq<Evidence>) {
    && (forall e :: e in evidence ==> e.id in byId)
    && (forall id :: id in byId ==> id == byId[id].id && byId[id] in evidence)
  }

  /** The part of the check that concerns one assessment alone. */
  method CheckAssessment(a: Assessment, report: Report, byId: map<string, Evidence>) returns (error: Option<CitationError>)
    requires DistinctEvidence(report.evidence) && Indexes(byId, report.evidence)
    requires HasClaim(report.claims, a.claimId)
    ensures error.None? <==> SoundAssessment(a, report.claims, report.evidence, report.version)
  {
    hide HasClaim;
    OneEvidencePerId(report.evidence, byId);
    if a.version != report.version {
      return Some(WrongVersion);
    }
    for j := 0 to |a.relations|
      invariant forall i :: 0 <= i < j ==> Cites(report.evidence, a.relations[i], a.claimId)
    {
      var r := a.relations[j];
      assert r in a.relations;
      if r.evidenceId !in byId || byId[r.evidenceId].claimId != a.claimId {
        return Some(UncitedRelation);
      }
    }
    if a.relations == [] && a.overall != InsufficientEvidence {
      return Some(NoAbstention);
    }
    return None;
  }

  /** The check before publication: it passes exactly the versions whose citations are valid. */
  method ValidateCitations(report: Report) returns (error: Option<CitationError>)
    ensures error.None? <==> CitationsValid(report)
  {
    hide SoundAssessment, DistinctEvidence, Indexes;
    var claims := set k | 0 <= k < |report.claims| :: report.claims[k].id;
    assert forall id :: id in claims <==> HasClaim(report.claims, id);
    hide HasClaim;
    var byId := IndexEvidence(report.evidence);
    if |byId| != |report.evidence| {
      return Some(DuplicateEvidence);
    }
    for k := 0 to |report.evidence|
      invariant forall a :: 0 <= a < k ==> HasClaim(report.claims, report.evidence[a].claimId)
    {
      if report.evidence[k].claimId !in claims {
        assert report.evidence[k] in report.evidence;
        return Some(ForeignEvidence);
      }
    }
    assert forall e :: e in report.evidence ==> HasClaim(report.claims, e.claimId);
    error := CheckAssessments(report, claims, byId);
  }

  method CheckAssessments(report: Report, claims: set<string>, byId: map<string, Evidence>)
    returns (error: Option<CitationError>)
    requires DistinctEvidence(report.evidence) && Indexes(byId, report.evidence)
    requires forall id :: id in claims <==> HasClaim(report.claims, id)
    ensures error.None? <==>
            DistinctlyAssessed(report.assessments)
            && forall a :: a in report.assessments ==> SoundAssessment(a, report.claims, report.evidence, report.version)
  {
    hide HasClaim, DistinctEvidence, Indexes;
    var assessed: set<string> := {};
    for k := 0 to |report.assessments|
      invariant forall id :: id in assessed <==> exists a :: 0 <= a < k && report.assessments[a].claimId == id
      invariant DistinctlyAssessed(report.assessments[..k])
      invariant forall a :: 0 <= a < k ==>
                  SoundAssessment(report.assessments[a], report.claims, report.evidence, report.version)
    {
      var a := report.assessments[k];
      assert a in report.assessments;
      if a.claimId !in claims || a.claimId in assessed {
        return Some(UnknownOrRepeatedClaim);
      }
      error := CheckAssessment(a, report, byId);
      if error.Some? {
        return;
      }
      assessed := assessed + {a.claimId};
    }
    assert report.assessments[..|report.assessments|] == report.assessments;
    return None;
  }

  /** Appending one record keeps identifiers distinct exactly when its own is new. */
  lemma DistinctStep(before: seq<Evidence>, e: Evidence)
    ensures DistinctEvidence(before + [e]) <==> DistinctEvidence(before) && forall x :: x in before ==> x.id != e.id
  {
    var after := before + [e];
    if DistinctEvidence(after) {
      forall a, b | 0 <= a < b < |before| ensures before[a].id != before[b].id {
        assert EvidenceId(after[a]) != EvidenceId(after[b]);
      }
      forall x | x in before ensures x.id != e.id {
        var a :| 0 <= a < |before| && before[a] == x;
        assert EvidenceId(after[a]) != EvidenceId(after[|before|]);
      }
    }
  }

  lemma ByIdStep(evidence: seq<Evidence>, k: nat, byId: map<string, Evidence>)
    requires k < |evidence| && Indexes(byId, evidence[..k])
    requires |byId| <= k && (|byId| == k <==> DistinctEvidence(evidence[..k]))
    ensures var next := byId[evidence[k].id := evidence[k]];
            && |next| <= k + 1 && (|next| == k + 1 <==> DistinctEvidence(evidence[..k + 1]))
            && Indexes(next, evidence[..k + 1])
  {
    hide DistinctEvidence;
    var e, before := evidence[k], evidence[..k];
    assert evidence[..k + 1] == before + [e];
    DistinctStep(before, e);
    var next := byId[e.id := e];
    if e.id in byId {
      assert next.Keys == byId.Keys;
      assert |next| == |next.Keys| == |byId.Keys|;
    } else {
      assert next.Keys == byId.Keys + {e.id};
      assert |next| == |next.Keys| == |byId.Keys| + 1;
    }
  }

  lemma OneEvidencePerId(evidence: seq<Evidence>, byId: map<string, Evidence>)
    requires DistinctEvidence(evidence) && Indexes(byId, evidence)
    ensures forall e :: e in evidence ==> e.id in byId && byId[e.id] == e
  {
  }
}
