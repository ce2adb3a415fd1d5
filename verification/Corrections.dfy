/** The version a user's correction publishes: one claim gets a new meaning and loses its evidence. */
module Corrections {
  import opened Wrappers
  import opened Lists
  import opened Reports

  function Stamp(a: Assessment, version: nat): Assessment {
    a.(version := version)
  }

  ghost predicate Carries(r: Report, identity: NextVersion) {
    r.id == identity.id && r.version == identity.version && r.supersedes == identity.supersedes
    && r.createdAt == identity.createdAt
  }

  /** The relations and label of a claim, whatever version they are stamped with. */
  ghost predicate AssessedAs(r: Report, claimId: string, relations: seq<EvidenceRelation>, overall: Overall) {
    exists a :: a in r.assessments && a.claimId == claimId && a.relations == relations && a.overall == overall
  }

  /** Both versions say the same about a claim: the same evidence and the same assessments. */
  ghost predicate SameAbout(r: Report, s: Report, claimId: string) {
    && (forall e: Evidence :: e.claimId == claimId ==> (e in r.evidence <==> e in s.evidence))
    && (forall relations, overall :: AssessedAs(r, claimId, relations, overall) <==> AssessedAs(s, claimId, relations, overall))
  }

  ghost predicate NothingAbout(r: Report, claimId: string) {
    (forall e :: e in r.evidence ==> e.claimId != claimId) && (forall a :: a in r.assessments ==> a.claimId != claimId)
  }

  // ----- Corrections -----

  datatype CorrectionError = ClaimNotInVersion | CorrectionUnchanged

  function FindClaim(claims: seq<Claim>, id: string): (found: Option<Claim>)
    ensures found.Some? <==> HasClaim(claims, id)
    ensures found.Some? ==> found.value in claims && found.value.id == id
  {
    if claims == [] then None
    else if claims[0].id == id then Some(claims[0])
    else
      var rest := FindClaim(claims[1..], id);
      assert forall k :: 1 <= k < |claims| ==> claims[k] == claims[1..][k - 1];
      rest
  }

  function Corrected(c: Claim, proposition: string, at: int): Claim {
    c.(proposition := proposition, correction := Some(Correction(at, c.proposition)))
  }

  function CorrectedReport(base: Report, claimId: string, proposition: string, identity: NextVersion)
    : Result<Report, CorrectionError>
  {
    var found := FindClaim(base.claims, claimId);
    if found.None? then Failure(ClaimNotInVersion)
    else if found.value.proposition == proposition then Failure(CorrectionUnchanged)
    else
      var corrected := Corrected(found.value, proposition, identity.createdAt);
      Success(base.(id := identity.id, version := identity.version, createdAt := identity.createdAt,
                    provisional := true, supersedes := identity.supersedes,
                    claims := Map(base.claims, (c: Claim) => if c.id == claimId then corrected else c),
                    evidence := Filter(base.evidence, (e: Evidence) => e.claimId != claimId),
                    assessments := Map(Filter(base.assessments, (a: Assessment) => a.claimId != claimId),
                                       (a: Assessment) => Stamp(a, identity.version))))
  }

  lemma SameClaims(before: seq<Claim>, after: seq<Claim>)
    requires |before| == |after| && forall k :: 0 <= k < |before| ==> before[k].id == after[k].id
    ensures forall id :: HasClaim(before, id) <==> HasClaim(after, id)
  {
    forall id ensures HasClaim(before, id) <==> HasClaim(after, id) {
      if HasClaim(before, id) {
        var k :| 0 <= k < |before| && before[k].id == id;
        assert after[k].id == id;
      }
      if HasClaim(after, id) {
        var k :| 0 <= k < |after| && after[k].id == id;
        assert before[k].id == id;
      }
    }
  }

  /** A sound assessment stays sound when its version is restamped and evidence of other claims goes. */
  lemma StaysSound(a: Assessment, b: Assessment, claims: seq<Claim>, newClaims: seq<Claim>,
                   evidence: seq<Evidence>, newEvidence: seq<Evidence>, version: nat)
    requires SoundAssessment(a, claims, evidence, version)
    requires b.claimId == a.claimId && b.relations == a.relations && b.overall == a.overall
    requires HasClaim(claims, a.claimId) ==> HasClaim(newClaims, a.claimId)
    requires forall e :: e in evidence && e.claimId == a.claimId ==> e in newEvidence
    ensures SoundAssessment(b, newClaims, newEvidence, b.version)
  {
    hide HasClaim;
    forall r | r in b.relations ensures Cites(newEvidence, r, b.claimId) {
      assert Cites(evidence, r, a.claimId);
      var e :| e in evidence && e.id == r.evidenceId && e.claimId == a.claimId;
      assert e in newEvidence;
    }
  }

  /** The correction path never runs the citation check, and never needs to. */
  lemma CorrectionKeepsCitations(base: Report, claimId: string, proposition: string, identity: NextVersion)
    requires CitationsValid(base)
    requires CorrectedReport(base, claimId, proposition, identity).Success?
    ensures CitationsValid(CorrectedReport(base, claimId, proposition, identity).value)
  {
    hide Filter, Map;
    hide SoundAssessment, DistinctEvidence, DistinctlyAssessed, HasClaim;
    var r := CorrectedReport(base, claimId, proposition, identity).value;
    SameClaims(base.claims, r.claims);
    CorrectedListsDistinct(base, claimId, identity.version);
    forall b | b in r.assessments ensures SoundAssessment(b, r.claims, r.evidence, r.version) {
      var a := SaidWasKept(base.assessments, r.assessments, (a: Assessment) => a.claimId != claimId,
                           (a: Assessment) => Stamp(a, identity.version), [], b);
      StaysSound(a, b, base.claims, r.claims, base.evidence, r.evidence, base.version);
    }
  }

  lemma CorrectedListsDistinct(base: Report, claimId: string, version: nat)
    requires DistinctEvidence(base.evidence) && DistinctlyAssessed(base.assessments)
    ensures DistinctEvidence(Filter(base.evidence, (e: Evidence) => e.claimId != claimId))
    ensures DistinctlyAssessed(Map(Filter(base.assessments, (a: Assessment) => a.claimId != claimId),
                                   (a: Assessment) => Stamp(a, version)))
  {
    FilterDistinct(base.evidence, (e: Evidence) => e.claimId != claimId, EvidenceId);
    FilterDistinct(base.assessments, (a: Assessment) => a.claimId != claimId, AssessedClaim);
  }

  /** What a correction does and what it leaves alone. */
  lemma CorrectionTouchesOneClaim(base: Report, claimId: string, proposition: string, identity: NextVersion)
    requires DistinctClaims(base.claims)
    requires CorrectedReport(base, claimId, proposition, identity).Success?
    ensures var r := CorrectedReport(base, claimId, proposition, identity).value;
            && Carries(r, identity) && r.provisional && r.investigation == base.investigation && r.fixture == base.fixture
            && DistinctClaims(r.claims) && |r.claims| == |base.claims| && NothingAbout(r, claimId)
            && (forall id :: id != claimId ==> SameAbout(base, r, id))
            && (forall k :: 0 <= k < |r.claims| ==> r.claims[k].originalText == base.claims[k].originalText)
            && (forall k :: 0 <= k < |r.claims| && base.claims[k].id != claimId ==> r.claims[k] == base.claims[k])
            && (forall k :: 0 <= k < |r.claims| && base.claims[k].id == claimId ==>
                  && r.claims[k].proposition == proposition != base.claims[k].proposition
                  && r.claims[k].correction == Some(Correction(identity.createdAt, base.claims[k].proposition))
                  && r.claims[k].(proposition := base.claims[k].proposition, correction := base.claims[k].correction)
                     == base.claims[k])
            && (forall a :: a in base.assessments && a.claimId != claimId ==> a.(version := identity.version) in r.assessments)
  {
    hide Filter, Map;
    forall a | a in base.assessments && a.claimId != claimId
      ensures a.(version := identity.version) in CorrectedReport(base, claimId, proposition, identity).value.assessments
    {
      KeptIsSaid(base.assessments, CorrectedReport(base, claimId, proposition, identity).value.assessments,
                 (a: Assessment) => a.claimId != claimId, (a: Assessment) => Stamp(a, identity.version), [], a);
    }
    var r := CorrectedReport(base, claimId, proposition, identity).value;
    var found := FindClaim(base.claims, claimId).value;
    var f :| 0 <= f < |base.claims| && base.claims[f] == found;
    forall k | 0 <= k < |base.claims| && base.claims[k].id == claimId ensures k == f {
      OnePlace(base.claims, ClaimId, k, f);
    }
    forall i, j | 0 <= i < j < |r.claims| ensures ClaimId(r.claims[i]) != ClaimId(r.claims[j]) {
      assert ClaimId(base.claims[i]) != ClaimId(base.claims[j]);
    }
    forall id | id != claimId ensures SameAbout(base, r, id) {
      RestampedSame(base, r, id, (a: Assessment) => a.claimId != claimId, (a: Assessment) => Stamp(a, identity.version), []);
    }
    CorrectedAboutNothing(base, claimId, identity.version, r);
  }

  lemma CorrectedAboutNothing(base: Report, claimId: string, version: nat, r: Report)
    requires r.evidence == Filter(base.evidence, (e: Evidence) => e.claimId != claimId)
    requires r.assessments == Map(Filter(base.assessments, (a: Assessment) => a.claimId != claimId),
                                  (a: Assessment) => Stamp(a, version))
    ensures NothingAbout(r, claimId)
  {
    hide Filter, Map;
    forall b | b in r.assessments ensures b.claimId != claimId {
      var a := SaidWasKept(base.assessments, r.assessments, (a: Assessment) => a.claimId != claimId,
                           (a: Assessment) => Stamp(a, version), [], b);
    }
  }

  ghost predicate Restamps(restamp: Assessment -> Assessment) {
    forall a :: restamp(a).claimId == a.claimId && restamp(a).relations == a.relations && restamp(a).overall == a.overall
  }

  lemma KeptIsSaid(before: seq<Assessment>, after: seq<Assessment>, keep: Assessment -> bool,
                   restamp: Assessment -> Assessment, more: seq<Assessment>, a: Assessment)
    requires after == Map(Filter(before, keep), restamp) + more
    requires a in before && keep(a)
    ensures restamp(a) in after
  {
    hide Filter, Map;
    var kept := Filter(before, keep);
    assert a in kept;
    var k :| 0 <= k < |kept| && kept[k] == a;
    assert after[k] == restamp(a);
  }

  lemma SaidWasKept(before: seq<Assessment>, after: seq<Assessment>, keep: Assessment -> bool,
                    restamp: Assessment -> Assessment, more: seq<Assessment>, b: Assessment)
    returns (a: Assessment)
    requires after == Map(Filter(before, keep), restamp) + more
    requires b in after && b !in more
    ensures a in before && keep(a) && restamp(a) == b
  {
    hide Filter, Map;
    var kept := Filter(before, keep);
    var k :| 0 <= k < |after| && after[k] == b;
    if k >= |kept| {
      assert false;
    }
    a := kept[k];
    assert a in kept;
  }

  /** Restamping and appending about other claims changes nothing that is said about a kept claim. */
  lemma RestampedSame(base: Report, r: Report, id: string, keep: Assessment -> bool,
                      restamp: Assessment -> Assessment, more: seq<Assessment>)
    requires r.assessments == Map(Filter(base.assessments, keep), restamp) + more && Restamps(restamp)
    requires forall a: Assessment :: a.claimId == id ==> keep(a)
    requires forall a :: a in more ==> a.claimId != id
    requires forall e: Evidence :: e.claimId == id ==> (e in base.evidence <==> e in r.evidence)
    ensures SameAbout(base, r, id)
  {
    hide Filter, Map;
    forall relations, overall
      ensures AssessedAs(base, id, relations, overall) <==> AssessedAs(r, id, relations, overall)
    {
      if AssessedAs(base, id, relations, overall) {
        var a :| a in base.assessments && a.claimId == id && a.relations == relations && a.overall == overall;
        KeptIsSaid(base.assessments, r.assessments, keep, restamp, more, a);
      }
      if AssessedAs(r, id, relations, overall) {
        var b :| b in r.assessments && b.claimId == id && b.relations == relations && b.overall == overall;
        var a := SaidWasKept(base.assessments, r.assessments, keep, restamp, more, b);
      }
    }
  }

  /** The claim found under an identifier is the one at its place. */
  lemma FoundAt(claims: seq<Claim>, k: nat)
    requires DistinctClaims(claims) && k < |claims|
    ensures FindClaim(claims, claims[k].id) == Some(claims[k])
  {
    assert HasClaim(claims, claims[k].id);
    var found := FindClaim(claims, claims[k].id).value;
    var f :| 0 <= f < |claims| && claims[f] == found;
    OnePlace(claims, ClaimId, f, k);
  }

  /** Correcting a claim back succeeds, and the propositions are then those of the base again. */
  lemma CorrectionCanBeTakenBack(base: Report, claimId: string, proposition: string, next: NextVersion, last: NextVersion)
    requires DistinctClaims(base.claims)
    requires CorrectedReport(base, claimId, proposition, next).Success?
    ensures var r := CorrectedReport(base, claimId, proposition, next).value;
            var back := CorrectedReport(r, claimId, FindClaim(base.claims, claimId).value.proposition, last);
            && back.Success? && |back.value.claims| == |base.claims|
            && forall k :: 0 <= k < |base.claims| ==> back.value.claims[k].proposition == base.claims[k].proposition
  {
    var r := CorrectedReport(base, claimId, proposition, next).value;
    var original := FindClaim(base.claims, claimId).value;
    var f :| 0 <= f < |base.claims| && base.claims[f] == original;
    CorrectionTouchesOneClaim(base, claimId, proposition, next);
    FoundAt(r.claims, f);
    TakesBack(base, r, claimId, f, last);
  }

  lemma TakesBack(base: Report, r: Report, claimId: string, f: nat, last: NextVersion)
    requires DistinctClaims(base.claims) && DistinctClaims(r.claims) && |r.claims| == |base.claims| && f < |base.claims|
    requires base.claims[f].id == claimId && FindClaim(r.claims, claimId) == Some(r.claims[f])
    requires r.claims[f].proposition != base.claims[f].proposition
    requires forall k :: 0 <= k < |base.claims| ==> r.claims[k].id == base.claims[k].id
    requires forall k :: 0 <= k < |base.claims| && k != f ==> r.claims[k] == base.claims[k]
    ensures var back := CorrectedReport(r, claimId, base.claims[f].proposition, last);
            && back.Success? && |back.value.claims| == |base.claims|
            && forall k :: 0 <= k < |base.claims| ==> back.value.claims[k].proposition == base.claims[k].proposition
  {
    hide Filter, Map, FindClaim;
    forall k | 0 <= k < |base.claims| && base.claims[k].id == claimId ensures k == f { OnePlace(base.claims, ClaimId, k, f); }
  }
}
