/** The version an assessment run publishes: newly assessed claims get their new evidence, every other
    claim keeps what it had. */
module EvidenceMerge {
  import opened Wrappers
  import opened Lists
  import opened Reports
  import opened Corrections
  import opened Assessing

  /** The claims this run assessed. */
  function NewlyAssessed(outcomes: seq<Outcome>): set<string> {
    set o | o in outcomes && o.assessment.Some? :: o.claimId
  }

  function NewAssessments(outcomes: seq<Outcome>): seq<Assessment> {
    if outcomes == [] then []
    else
      var o := outcomes[|outcomes| - 1];
      NewAssessments(outcomes[..|outcomes| - 1]) + if o.assessment.Some? then [o.assessment.value] else []
  }

  function NewEvidence(outcomes: seq<Outcome>): seq<Evidence> {
    if outcomes == [] then []
    else
      var o := outcomes[|outcomes| - 1];
      NewEvidence(outcomes[..|outcomes| - 1]) + if o.assessment.Some? then o.evidence else []
  }

  function Restamp(version: nat, provisional: bool): Assessment -> Assessment {
    (a: Assessment) => a.(version := version, provisional := provisional)
  }

  function Outside(scope: set<string>): Assessment -> bool {
    (a: Assessment) => a.claimId !in scope
  }

  function EvidenceOutside(scope: set<string>): Evidence -> bool {
    (e: Evidence) => e.claimId !in scope
  }

  ghost predicate Assesses(assessments: seq<Assessment>, id: string) {
    exists a :: a in assessments && a.claimId == id
  }

  ghost predicate Attempted(outcomes: seq<Outcome>, id: string) {
    exists o :: o in outcomes && o.claimId == id
  }

  /** A claim no run has tried yet keeps a provisional report provisional. */
  ghost predicate Waits(c: Claim, base: Report, assessments: seq<Assessment>, outcomes: seq<Outcome>) {
    base.provisional && c.supersededBy.None? && !Assesses(assessments, c.id) && !Attempted(outcomes, c.id)
  }

  ghost function Merge(base: Report, outcomes: seq<Outcome>, scope: set<string>, open: bool, identity: NextVersion): Report {
    var assessments := Map(Filter(base.assessments, Outside(scope)), Restamp(identity.version, open))
                       + Map(NewAssessments(outcomes), Restamp(identity.version, open));
    base.(id := identity.id, version := identity.version, createdAt := identity.createdAt,
          provisional := open || exists c :: c in base.claims && Waits(c, base, assessments, outcomes),
          supersedes := identity.supersedes,
          evidence := Filter(base.evidence, EvidenceOutside(scope)) + NewEvidence(outcomes),
          assessments := assessments)
  }

  /** The merged version, or the citation check's refusal of it. */
  method MergedVersion(base: Report, outcomes: seq<Outcome>, scope: set<string>, open: bool, identity: NextVersion)
    returns (built: Result<Report, CitationError>)
    ensures built.Success? <==> CitationsValid(Merge(base, outcomes, scope, open, identity))
    ensures built.Success? ==> built.value == Merge(base, outcomes, scope, open, identity)
  {
    hide Filter, Map, CitationsValid;
    var restamp := Restamp(identity.version, open);
    var kept := Map(Filter(base.assessments, Outside(scope)), restamp);
    var assessments := kept;
    var evidence := Filter(base.evidence, EvidenceOutside(scope));
    for k := 0 to |outcomes|
      invariant assessments == kept + Map(NewAssessments(outcomes[..k]), restamp)
      invariant evidence == Filter(base.evidence, EvidenceOutside(scope)) + NewEvidence(outcomes[..k])
    {
      assert outcomes[..k + 1][..k] == outcomes[..k];
      if outcomes[k].assessment.Some? {
        assessments := assessments + [restamp(outcomes[k].assessment.value)];
        evidence := evidence + outcomes[k].evidence;
      }
    }
    assert outcomes[..|outcomes|] == outcomes;
    var assessed := set a | a in assessments :: a.claimId;
    var attempted := set o | o in outcomes :: o.claimId;
    assert forall id :: id in assessed <==> Assesses(assessments, id);
    assert forall id :: id in attempted <==> Attempted(outcomes, id);
    var waiting := Filter(base.claims, (c: Claim) => c.supersededBy.None? && c.id !in assessed && c.id !in attempted
                                                     && base.provisional);
    assert waiting != [] ==> waiting[0] in waiting;
    assert waiting == [] <==> !exists c :: c in base.claims && Waits(c, base, assessments, outcomes);
    var report := base.(id := identity.id, version := identity.version, createdAt := identity.createdAt,
                        provisional := open || waiting != [], supersedes := identity.supersedes,
                        evidence := evidence, assessments := assessments);
    var error := ValidateCitations(report);
    return if error.Some? then Failure(error.value) else Success(report);
  }

  // ----- What the assessor hands over -----

  /** An outcome of the assessor: evidence about its claim only, each relation citing some of it. */
  ghost predicate WellMade(o: Outcome) {
    && (o.assessment.None? ==> o.evidence == [])
    && (forall e :: e in o.evidence ==> e.claimId == o.claimId)
    && (o.assessment.Some? ==> o.assessment.value.claimId == o.claimId)
    && (o.assessment.Some? ==> forall r :: r in o.assessment.value.relations ==> Cites(o.evidence, r, o.claimId))
    && (o.assessment.Some? && o.assessment.value.relations == [] ==> o.assessment.value.overall == InsufficientEvidence)
  }

  /** Evidence identifiers are a digest of the claim and the origin. */
  ghost predicate Digested(evidence: seq<Evidence>, digest: (string, string) -> string) {
    forall e :: e in evidence ==> e.id == digest(e.claimId, e.source)
  }

  ghost predicate Injective(digest: (string, string) -> string) {
    forall a, b, c, d :: digest(a, b) == digest(c, d) ==> a == c && b == d
  }

  ghost predicate DistinctOrigins(passages: seq<Passage>) {
    forall a, b :: 0 <= a < b < |passages| ==> passages[a].origin != passages[b].origin
  }

  /** What the assessor returns is well made; with one passage per origin its evidence identifiers differ. */
  lemma AssessorIsWellMade(o: Outcome, retrieval: Retrieval, items: seq<Item>, id: string, version: nat,
                           provisional: bool, digest: (string, string) -> string)
    requires retrieval.Retrieved? && Assessed(o, retrieval, items, id, version, provisional)
    ensures WellMade(o)
    ensures DistinctOrigins(retrieval.passages) && Digested(o.evidence, digest) && Injective(digest)
            ==> DistinctEvidence(o.evidence)
  {
    var a := o.assessment.value;
    forall r | r in a.relations ensures Cites(o.evidence, r, o.claimId) {
      var k :| 0 <= k < |a.relations| && a.relations[k] == r;
      assert o.evidence[k] in o.evidence;
    }
    AbstainsWhenNothingCounts(a.relations);
    if DistinctOrigins(retrieval.passages) && Digested(o.evidence, digest) && Injective(digest) {
      forall i, j | 0 <= i < j < |o.evidence| ensures EvidenceId(o.evidence[i]) != EvidenceId(o.evidence[j]) {
        assert o.evidence[i] in o.evidence && o.evidence[j] in o.evidence;
      }
    }
  }

  // ----- What the merge keeps and what it replaces -----

  /** No claim identifier is assessed twice. */
  ghost predicate AssessedOnce(outcomes: seq<Outcome>) {
    forall a, b :: 0 <= a < b < |outcomes| && outcomes[a].assessment.Some? && outcomes[b].assessment.Some? ==>
      outcomes[a].claimId != outcomes[b].claimId
  }

  ghost predicate AllWellMade(outcomes: seq<Outcome>) {
    forall o :: o in outcomes ==> WellMade(o)
  }

  lemma {:induction false} NewFrom(outcomes: seq<Outcome>)
    ensures forall a :: a in NewAssessments(outcomes) <==> exists o :: o in outcomes && o.assessment == Some(a)
    ensures forall e :: e in NewEvidence(outcomes) <==> exists o :: o in outcomes && o.assessment.Some? && e in o.evidence
  {
    if outcomes != [] {
      var before, last := outcomes[..|outcomes| - 1], outcomes[|outcomes| - 1];
      NewFrom(before);
      assert outcomes == before + [last];
    }
  }

  lemma InMap<A(!new), B(!new)>(s: seq<A>, f: A -> B, y: B)
    ensures y in Map(s, f) <==> exists x :: x in s && f(x) == y
  {
    var m := Map(s, f);
    if y in m {
      var k :| 0 <= k < |m| && m[k] == y;
      assert s[k] in s;
    }
    if x :| x in s && f(x) == y {
      var k :| 0 <= k < |s| && s[k] == x;
      assert m[k] == y;
    }
  }

  /** A run adds the claims it assessed to the assessed ones, and takes none away. */
  lemma AssessedSet(base: Report, outcomes: seq<Outcome>, open: bool, identity: NextVersion, id: string)
    requires AllWellMade(outcomes)
    ensures Assesses(Merge(base, outcomes, NewlyAssessed(outcomes), open, identity).assessments, id) <==>
            Assesses(base.assessments, id) || id in NewlyAssessed(outcomes)
  {
    hide Filter, Map;
    var scope := NewlyAssessed(outcomes);
    var restamp := Restamp(identity.version, open);
    var added := Map(NewAssessments(outcomes), restamp);
    var m := Merge(base, outcomes, scope, open, identity);
    NewFrom(outcomes);
    if Assesses(base.assessments, id) && id !in scope {
      var a :| a in base.assessments && a.claimId == id;
      KeptIsSaid(base.assessments, m.assessments, Outside(scope), restamp, added, a);
    }
    if id in scope {
      var o :| o in outcomes && o.assessment.Some? && o.claimId == id;
      InMap(NewAssessments(outcomes), restamp, restamp(o.assessment.value));
      assert restamp(o.assessment.value) in added;
    }
    if Assesses(m.assessments, id) && id !in scope {
      var b :| b in m.assessments && b.claimId == id;
      NewIsInScope(outcomes, restamp, b);
      var a := SaidWasKept(base.assessments, m.assessments, Outside(scope), restamp, added, b);
    }
  }

  lemma NewIsInScope(outcomes: seq<Outcome>, restamp: Assessment -> Assessment, b: Assessment)
    requires AllWellMade(outcomes) && Restamps(restamp)
    ensures b in Map(NewAssessments(outcomes), restamp) ==> b.claimId in NewlyAssessed(outcomes)
  {
    NewFrom(outcomes);
    InMap(NewAssessments(outcomes), restamp, b);
  }

  /** A claim this run did not assess keeps its evidence and its assessment. */
  lemma OthersKept(base: Report, outcomes: seq<Outcome>, open: bool, identity: NextVersion, id: string)
    requires AllWellMade(outcomes) && id !in NewlyAssessed(outcomes)
    ensures SameAbout(base, Merge(base, outcomes, NewlyAssessed(outcomes), open, identity), id)
  {
    hide Filter, Map;
    var scope := NewlyAssessed(outcomes);
    var restamp := Restamp(identity.version, open);
    var added := Map(NewAssessments(outcomes), restamp);
    var m := Merge(base, outcomes, scope, open, identity);
    NewFrom(outcomes);
    forall b | b in added ensures b.claimId != id { NewIsInScope(outcomes, restamp, b); }
    RestampedSame(base, m, id, Outside(scope), restamp, added);
  }

  /** A claim that still waits for its first evidence run. */
  ghost predicate Untried(base: Report, outcomes: seq<Outcome>, c: Claim) {
    && c in base.claims && c.supersededBy.None?
    && (forall a :: a in base.assessments ==> a.claimId != c.id) && (forall o :: o in outcomes ==> o.claimId != c.id)
  }

  /** The merged version carries the identity it was given and the claims of its base. It is provisional
      while the capture is open, and stays so while a claim was neither assessed nor tried; its assessments
      are provisional exactly while the capture is open. */
  lemma MergedStaysProvisionalIff(base: Report, outcomes: seq<Outcome>, open: bool, identity: NextVersion)
    requires AllWellMade(outcomes)
    ensures var m := Merge(base, outcomes, NewlyAssessed(outcomes), open, identity);
            && Carries(m, identity) && m.claims == base.claims && m.investigation == base.investigation
            && (m.provisional <==> open || (base.provisional && exists c :: Untried(base, outcomes, c)))
            && forall a :: a in m.assessments ==> a.version == identity.version && a.provisional == open
  {
    hide Filter, Map, NewAssessments, NewEvidence;
    var m := Merge(base, outcomes, NewlyAssessed(outcomes), open, identity);
    forall c | c in base.claims ensures Waits(c, base, m.assessments, outcomes) <==> base.provisional && Untried(base, outcomes, c) {
      AssessedSet(base, outcomes, open, identity, c.id);
    }
    var restamp := Restamp(identity.version, open);
    forall a | a in m.assessments ensures a.version == identity.version && a.provisional == open {
      InMap(Filter(base.assessments, Outside(NewlyAssessed(outcomes))), restamp, a);
      InMap(NewAssessments(outcomes), restamp, a);
    }
  }

  /** A claim this run assessed has exactly the outcome's evidence and assessment. */
  lemma OutcomeReplaces(base: Report, outcomes: seq<Outcome>, open: bool, identity: NextVersion, o: Outcome)
    requires AllWellMade(outcomes) && AssessedOnce(outcomes) && o in outcomes && o.assessment.Some?
    ensures var m := Merge(base, outcomes, NewlyAssessed(outcomes), open, identity);
            && (forall e: Evidence :: e.claimId == o.claimId ==> (e in m.evidence <==> e in o.evidence))
            && (forall a :: a in m.assessments && a.claimId == o.claimId <==>
                  a == o.assessment.value.(version := identity.version, provisional := open))
  {
    hide Filter, Map;
    var scope := NewlyAssessed(outcomes);
    var restamp := Restamp(identity.version, open);
    var added := Map(NewAssessments(outcomes), restamp);
    var m := Merge(base, outcomes, scope, open, identity);
    NewFrom(outcomes);
    assert forall p :: p in outcomes && p.assessment.Some? && p.claimId == o.claimId ==> p == o;
    InMap(NewAssessments(outcomes), restamp, restamp(o.assessment.value));
    forall a | a in m.assessments && a.claimId == o.claimId ensures a == restamp(o.assessment.value) {
      if a !in added {
        var kept := SaidWasKept(base.assessments, m.assessments, Outside(scope), restamp, added, a);
        assert false;
      }
      InMap(NewAssessments(outcomes), restamp, a);
    }
  }

  // ----- The citation check of a merge -----

  lemma {:induction false} NewDistinct(outcomes: seq<Outcome>)
    requires AllWellMade(outcomes) && AssessedOnce(outcomes)
    ensures DistinctlyAssessed(NewAssessments(outcomes))
  {
    if outcomes != [] {
      var before, last := outcomes[..|outcomes| - 1], outcomes[|outcomes| - 1];
      NewDistinct(before);
      NewFrom(before);
      var added := NewAssessments(before);
      forall k | 0 <= k < |added| ensures last.assessment.Some? ==> AssessedClaim(added[k]) != last.claimId {
        assert added[k] in added;
        var o :| o in before && o.assessment == Some(added[k]);
      }
      assert last in outcomes;
    }
  }

  lemma MergedAssessmentsDistinct(base: Report, outcomes: seq<Outcome>, open: bool, identity: NextVersion)
    requires DistinctlyAssessed(base.assessments) && AllWellMade(outcomes) && AssessedOnce(outcomes)
    ensures DistinctlyAssessed(Merge(base, outcomes, NewlyAssessed(outcomes), open, identity).assessments)
  {
    hide Filter, Map;
    var scope := NewlyAssessed(outcomes);
    var restamp := Restamp(identity.version, open);
    var kept, added := Filter(base.assessments, Outside(scope)), NewAssessments(outcomes);
    FilterDistinct(base.assessments, Outside(scope), AssessedClaim);
    NewDistinct(outcomes);
    ConcatDistinct(Map(kept, restamp), Map(added, restamp), AssessedClaim);
    forall id | Keyed(Map(kept, restamp), AssessedClaim, id) ensures !Keyed(Map(added, restamp), AssessedClaim, id) {
      var k :| 0 <= k < |kept| && AssessedClaim(Map(kept, restamp)[k]) == id;
      assert kept[k] in kept;
      forall b | b in Map(added, restamp) ensures AssessedClaim(b) != id { NewIsInScope(outcomes, restamp, b); }
    }
  }

  /** A merge of well-made outcomes can only be refused for a repeated evidence identifier. */
  lemma RefusedOnlyForEvidenceIds(base: Report, outcomes: seq<Outcome>, open: bool, identity: NextVersion)
    requires CitationsValid(base) && AllWellMade(outcomes) && AssessedOnce(outcomes)
    requires forall o :: o in outcomes ==> HasClaim(base.claims, o.claimId)
    ensures var m := Merge(base, outcomes, NewlyAssessed(outcomes), open, identity);
            CitationsValid(m) <==> DistinctEvidence(m.evidence)
  {
    hide Filter, Map, HasClaim, DistinctEvidence, DistinctlyAssessed, SoundAssessment;
    var scope := NewlyAssessed(outcomes);
    var restamp := Restamp(identity.version, open);
    var added := Map(NewAssessments(outcomes), restamp);
    var m := Merge(base, outcomes, scope, open, identity);
    MergedAssessmentsDistinct(base, outcomes, open, identity);
    NewFrom(outcomes);
    forall b | b in m.assessments ensures SoundAssessment(b, m.claims, m.evidence, m.version) {
      if b in added {
        InMap(NewAssessments(outcomes), restamp, b);
        var a :| a in NewAssessments(outcomes) && restamp(a) == b;
        var o :| o in outcomes && o.assessment == Some(a);
        NewIsSound(o, b, m);
      } else {
        var a := SaidWasKept(base.assessments, m.assessments, Outside(scope), restamp, added, b);
        StaysSound(a, b, base.claims, m.claims, base.evidence, m.evidence, base.version);
      }
    }
  }

  lemma NewIsSound(o: Outcome, b: Assessment, m: Report)
    requires WellMade(o) && o.assessment.Some? && HasClaim(m.claims, o.claimId) && b.version == m.version
    requires b == Restamp(b.version, b.provisional)(o.assessment.value)
    requires forall e :: e in o.evidence ==> e in m.evidence
    ensures SoundAssessment(b, m.claims, m.evidence, m.version)
  {
    StaysSound(b, b, m.claims, m.claims, o.evidence, m.evidence, m.version);
  }

  lemma DistinctById(evidence: seq<Evidence>)
    ensures DistinctEvidence(evidence) <==> DistinctBy(evidence, EvidenceId)
    ensures evidence == [] ==> DistinctEvidence(evidence)
  {
  }

  lemma {:induction false} NewEvidenceDistinct(outcomes: seq<Outcome>, digest: (string, string) -> string)
    requires AllWellMade(outcomes) && AssessedOnce(outcomes) && Injective(digest)
    requires forall o :: o in outcomes ==> DistinctEvidence(o.evidence) && Digested(o.evidence, digest)
    ensures DistinctEvidence(NewEvidence(outcomes)) && Digested(NewEvidence(outcomes), digest)
  {
    hide DistinctEvidence, Injective;
    if outcomes != [] {
      var before, last := outcomes[..|outcomes| - 1], outcomes[|outcomes| - 1];
      assert last in outcomes && forall o :: o in before ==> o in outcomes;
      NewEvidenceDistinct(before, digest);
      if last.assessment.Some? {
        NewFrom(before);
        forall e, f | e in NewEvidence(before) && f in last.evidence ensures e.claimId != f.claimId {
          var o :| o in before && o.assessment.Some? && e in o.evidence;
        }
        ApartDistinct(NewEvidence(before), last.evidence, digest);
      } else {
        assert NewEvidence(outcomes) == NewEvidence(before);
      }
    } else {
      DistinctById(NewEvidence(outcomes));
    }
  }

  lemma ApartDistinct(s: seq<Evidence>, t: seq<Evidence>, digest: (string, string) -> string)
    requires DistinctEvidence(s) && DistinctEvidence(t) && Injective(digest) && Digested(s, digest) && Digested(t, digest)
    requires forall e, f :: e in s && f in t ==> e.claimId != f.claimId
    ensures DistinctEvidence(s + t)
  {
    ConcatDistinct(s, t, EvidenceId);
    forall id | Keyed(s, EvidenceId, id) ensures !Keyed(t, EvidenceId, id) {
      KeyedIn(s, EvidenceId, id);
      KeyedIn(t, EvidenceId, id);
    }
  }

  /** Evidence found for a claim of this investigation is named by its digest, evidence of a full video
      by a prefix that no digest has. */
  ghost predicate Named(evidence: seq<Evidence>, digest: (string, string) -> string) {
    forall e :: e in evidence ==> e.id == digest(e.claimId, e.source) || "fv" <= e.id
  }

  ghost predicate Digests(digest: (string, string) -> string) {
    Injective(digest) && forall a, b :: "evd_" <= digest(a, b)
  }

  /** Outcomes of one run of the assessor: of claims of the report, with one piece of evidence per origin. */
  ghost predicate OutcomesFor(base: Report, outcomes: seq<Outcome>, digest: (string, string) -> string) {
    && AllWellMade(outcomes)
    && forall o :: o in outcomes ==> HasClaim(base.claims, o.claimId) && DistinctEvidence(o.evidence) && Digested(o.evidence, digest)
  }

  lemma MergedEvidenceNamed(base: Report, outcomes: seq<Outcome>, open: bool, identity: NextVersion,
                            digest: (string, string) -> string)
    requires Named(base.evidence, digest) && forall o :: o in outcomes ==> Digested(o.evidence, digest)
    ensures Named(Merge(base, outcomes, NewlyAssessed(outcomes), open, identity).evidence, digest)
  {
    hide Filter, NewEvidence;
    NewFrom(outcomes);
  }

  /** With digests that never collide, the check refuses the merge of an assessor's outcomes exactly
      when a claim identifier was assessed twice. */
  lemma RefusedOnlyForRepeats(base: Report, outcomes: seq<Outcome>, open: bool, identity: NextVersion,
                              digest: (string, string) -> string)
    requires CitationsValid(base) && Named(base.evidence, digest) && Digests(digest) && OutcomesFor(base, outcomes, digest)
    ensures CitationsValid(Merge(base, outcomes, NewlyAssessed(outcomes), open, identity)) <==> AssessedOnce(outcomes)
  {
    hide Merge, Digests, Named, HasClaim, Digested, DistinctEvidence;
    if AssessedOnce(outcomes) {
      NeverRefused(base, outcomes, open, identity, digest);
    } else {
      AssessedTwice(base, outcomes, open, identity);
    }
  }

  lemma AssessedTwice(base: Report, outcomes: seq<Outcome>, open: bool, identity: NextVersion)
    requires AllWellMade(outcomes) && !AssessedOnce(outcomes)
    ensures !DistinctlyAssessed(Merge(base, outcomes, NewlyAssessed(outcomes), open, identity).assessments)
  {
    hide Filter, Map;
    var restamp := Restamp(identity.version, open);
    var kept, added := Filter(base.assessments, Outside(NewlyAssessed(outcomes))), NewAssessments(outcomes);
    var i, j := NewAssessmentsRepeat(outcomes);
    ConcatDistinct(Map(kept, restamp), Map(added, restamp), AssessedClaim);
    assert AssessedClaim(Map(added, restamp)[i]) == AssessedClaim(Map(added, restamp)[j]);
  }

  /** When two claims of a version share an identifier, as after a second expansion by the same version
      of a full video, a run that assesses every claim is always refused. */
  lemma RepeatedClaimsAreRefused(base: Report, outcomes: seq<Outcome>, open: bool, identity: NextVersion)
    requires !DistinctClaims(base.claims) && AllWellMade(outcomes) && |outcomes| == |base.claims|
    requires forall k :: 0 <= k < |outcomes| ==> outcomes[k].claimId == base.claims[k].id && outcomes[k].assessment.Some?
    ensures !CitationsValid(Merge(base, outcomes, NewlyAssessed(outcomes), open, identity))
  {
    hide Merge, DistinctlyAssessed, WellMade;
    var i, j :| 0 <= i < j < |base.claims| && ClaimId(base.claims[i]) == ClaimId(base.claims[j]);
    assert outcomes[i].claimId == outcomes[j].claimId;
    AssessedTwice(base, outcomes, open, identity);
  }

  lemma {:induction false} NewAssessmentsRepeat(outcomes: seq<Outcome>) returns (i: nat, j: nat)
    requires AllWellMade(outcomes) && !AssessedOnce(outcomes)
    ensures i < j < |NewAssessments(outcomes)| && NewAssessments(outcomes)[i].claimId == NewAssessments(outcomes)[j].claimId
  {
    var n := |outcomes| - 1;
    var before, last := outcomes[..n], outcomes[n];
    assert last in outcomes && forall o :: o in before ==> o in outcomes;
    if AssessedOnce(before) {
      var a, b :| 0 <= a < b < |outcomes| && outcomes[a].assessment.Some? && outcomes[b].assessment.Some?
                  && outcomes[a].claimId == outcomes[b].claimId;
      assert b == n;
      assert before[a] in before;
      NewFrom(before);
      assert outcomes[a].assessment.value in NewAssessments(before);
      i :| 0 <= i < |NewAssessments(before)| && NewAssessments(before)[i] == outcomes[a].assessment.value;
      j := |NewAssessments(before)|;
    } else {
      i, j := NewAssessmentsRepeat(before);
    }
  }

  /** With digests that never collide, outcomes that assess no claim identifier twice are never refused. */
  lemma NeverRefused(base: Report, outcomes: seq<Outcome>, open: bool, identity: NextVersion,
                     digest: (string, string) -> string)
    requires CitationsValid(base) && Named(base.evidence, digest) && Digests(digest) && OutcomesFor(base, outcomes, digest)
    requires AssessedOnce(outcomes)
    ensures CitationsValid(Merge(base, outcomes, NewlyAssessed(outcomes), open, identity))
  {
    hide Filter, DistinctEvidence, Injective;
    var scope := NewlyAssessed(outcomes);
    var kept, added := Filter(base.evidence, EvidenceOutside(scope)), NewEvidence(outcomes);
    DistinctById(base.evidence);
    FilterDistinct(base.evidence, EvidenceOutside(scope), EvidenceId);
    DistinctById(kept);
    NewEvidenceDistinct(outcomes, digest);
    forall id | Keyed(kept, EvidenceId, id) ensures !Keyed(added, EvidenceId, id) {
      KeyedIn(kept, EvidenceId, id);
      KeyedIn(added, EvidenceId, id);
      NewFrom(outcomes);
      forall e, f | e in kept && f in added ensures e.id != f.id {
        KeptIsNoDigest(e, f, digest);
      }
    }
    DistinctById(added);
    ConcatDistinct(kept, added, EvidenceId);
    DistinctById(kept + added);
    RefusedOnlyForEvidenceIds(base, outcomes, open, identity);
  }

  lemma KeptIsNoDigest(e: Evidence, f: Evidence, digest: (string, string) -> string)
    requires Digests(digest) && f.id == digest(f.claimId, f.source) && e.claimId != f.claimId
    requires e.id == digest(e.claimId, e.source) || "fv" <= e.id
    ensures e.id != f.id
  {
    if "fv" <= e.id {
      assert e.id[0] == 'f' && f.id[0] == 'e';
    }
  }
}
