/** The version an expansion publishes: the clip's claims plus those of the confirmed full video, whose
    identifiers get a prefix naming the full video's version. */
module Expansion {
  import opened Wrappers
  import opened Lists
  import opened Reports
  import opened Corrections

  const LONGEST_ID: nat := 128

  function Digits(n: nat): (s: string)
    ensures |s| > 0 && forall k :: 0 <= k < |s| ==> '0' <= s[k] <= '9'
  {
    (if n < 10 then "" else Digits(n / 10)) + ["0123456789"[n % 10]]
  }

  function Prefix(version: nat): string {
    "fv" + Digits(version) + "_"
  }

  function Prefixed(value: string, prefix: string): string {
    var whole := prefix + value;
    if |whole| <= LONGEST_ID then whole else whole[..LONGEST_ID]
  }

  function RenamedClaim(prefix: string): Claim -> Claim {
    (c: Claim) => c.(id := Prefixed(c.id, prefix), occurrenceId := Prefixed(c.occurrenceId, prefix))
  }

  function RenamedEvidence(prefix: string): Evidence -> Evidence {
    (e: Evidence) => e.(id := Prefixed(e.id, prefix), claimId := Prefixed(e.claimId, prefix))
  }

  function RenamedRelation(prefix: string): EvidenceRelation -> EvidenceRelation {
    (r: EvidenceRelation) => r.(evidenceId := Prefixed(r.evidenceId, prefix))
  }

  function RenamedAssessment(prefix: string, version: nat): Assessment -> Assessment {
    (a: Assessment) => a.(id := Prefixed(a.id, prefix), claimId := Prefixed(a.claimId, prefix), version := version,
                          relations := Map(a.relations, RenamedRelation(prefix)))
  }

  function Restamped(version: nat): Assessment -> Assessment {
    (a: Assessment) => Stamp(a, version)
  }

  function Expanded(clip: Report, full: Report, identity: NextVersion): Report {
    var prefix := Prefix(full.version);
    clip.(id := identity.id, version := identity.version, createdAt := identity.createdAt,
          provisional := clip.provisional || full.provisional, supersedes := identity.supersedes,
          claims := clip.claims + Map(full.claims, RenamedClaim(prefix)),
          evidence := clip.evidence + Map(full.evidence, RenamedEvidence(prefix)),
          assessments := Map(clip.assessments, Restamped(identity.version))
                         + Map(full.assessments, RenamedAssessment(prefix, identity.version)))
  }

  /** The expanded version, or the citation check's refusal of it. */
  method ExpandedVersion(clip: Report, full: Report, identity: NextVersion) returns (built: Result<Report, CitationError>)
    ensures built.Success? <==> CitationsValid(Expanded(clip, full, identity))
    ensures built.Success? ==> built.value == Expanded(clip, full, identity)
  {
    hide CitationsValid, Map;
    var report := Expanded(clip, full, identity);
    var error := ValidateCitations(report);
    return if error.Some? then Failure(error.value) else Success(report);
  }

  // ----- Prefixes -----

  /** Short enough to keep its prefix and all of its own text. */
  predicate Fits(id: string, prefix: string) {
    |prefix| + |id| <= LONGEST_ID
  }

  lemma PrefixKeepsApart(a: string, b: string, prefix: string)
    requires Fits(a, prefix) && Fits(b, prefix)
    ensures Prefixed(a, prefix) == Prefixed(b, prefix) <==> a == b
  {
    assert (prefix + a)[|prefix|..] == a && (prefix + b)[|prefix|..] == b;
  }

  lemma {:induction false} DigitsInjective(m: nat, n: nat)
    requires Digits(m) == Digits(n)
    ensures m == n
  {
    var s, t := Digits(m), Digits(n);
    assert s[|s| - 1] == "0123456789"[m % 10] && t[|t| - 1] == "0123456789"[n % 10];
    assert m % 10 == n % 10;
    if m >= 10 && n >= 10 {
      assert s[..|s| - 1] == Digits(m / 10) && t[..|t| - 1] == Digits(n / 10);
      DigitsInjective(m / 10, n / 10);
    }
  }

  lemma VersionShows(m: nat, x: string)
    requires Prefix(m) <= x
    ensures var i := |Digits(m)|;
            |x| > 2 + i && x[2..2 + i] == Digits(m) && x[2 + i] == '_' && forall k :: 2 <= k < 2 + i ==> x[k] != '_'
  {
    hide Digits;
    var i := |Digits(m)|;
    assert x[..2 + i + 1] == Prefix(m);
    assert x[2..2 + i] == Prefix(m)[2..2 + i];
    assert forall k :: 2 <= k < 2 + i ==> x[k] == Digits(m)[k - 2];
  }

  /** An identifier begins with the prefix of one version only. */
  lemma OneVersion(m: nat, n: nat, x: string)
    requires Prefix(m) <= x && Prefix(n) <= x
    ensures m == n
  {
    hide Prefix, Digits;
    VersionShows(m, x);
    VersionShows(n, x);
    DigitsInjective(m, n);
  }

  /** Identifiers taken from two different versions of a full video never collide. */
  lemma VersionsNeverCollide(m: nat, n: nat, a: string, b: string)
    requires |Prefix(m)| <= LONGEST_ID && |Prefix(n)| <= LONGEST_ID
    requires Prefixed(a, Prefix(m)) == Prefixed(b, Prefix(n))
    ensures m == n
  {
    hide Prefix, Digits;
    OneVersion(m, n, Prefixed(a, Prefix(m)));
  }

  // ----- The citation check of an expansion -----

  /** The renamed evidence and assessments stay apart from each other and from the clip's. */
  ghost predicate NoCollision(clip: Report, full: Report) {
    var prefix := Prefix(full.version);
    && DistinctEvidence(clip.evidence + Map(full.evidence, RenamedEvidence(prefix)))
    && DistinctlyAssessed(clip.assessments + Map(full.assessments, RenamedAssessment(prefix, 0)))
  }

  lemma SameKeys<A(!new)>(s: seq<A>, t: seq<A>, key: A -> string)
    requires |s| == |t| && forall k :: 0 <= k < |s| ==> key(s[k]) == key(t[k])
    ensures DistinctBy(s, key) <==> DistinctBy(t, key)
  {
  }

  lemma ClaimsGrow(clip: Report, full: Report, identity: NextVersion, id: string)
    ensures HasClaim(clip.claims, id) ==> HasClaim(Expanded(clip, full, identity).claims, id)
    ensures HasClaim(full.claims, id) ==> HasClaim(Expanded(clip, full, identity).claims, Prefixed(id, Prefix(full.version)))
  {
    hide Map;
    var prefix := Prefix(full.version);
    var all := Expanded(clip, full, identity).claims;
    if HasClaim(clip.claims, id) {
      var k :| 0 <= k < |clip.claims| && clip.claims[k].id == id;
      assert all[k].id == id;
    }
    if HasClaim(full.claims, id) {
      var k :| 0 <= k < |full.claims| && full.claims[k].id == id;
      assert all[|clip.claims| + k] == RenamedClaim(prefix)(full.claims[k]);
    }
  }

  lemma RenamedIsSound(clip: Report, full: Report, identity: NextVersion, a: Assessment)
    requires a in full.assessments && SoundAssessment(a, full.claims, full.evidence, full.version)
    ensures var x := Expanded(clip, full, identity);
            SoundAssessment(RenamedAssessment(Prefix(full.version), identity.version)(a), x.claims, x.evidence, x.version)
  {
    hide HasClaim, Prefix, Prefixed, Map;
    var prefix := Prefix(full.version);
    var x := Expanded(clip, full, identity);
    var b := RenamedAssessment(prefix, identity.version)(a);
    ClaimsGrow(clip, full, identity, a.claimId);
    forall r | r in b.relations ensures Cites(x.evidence, r, b.claimId) {
      var k :| 0 <= k < |b.relations| && b.relations[k] == r;
      assert a.relations[k] in a.relations && Cites(full.evidence, a.relations[k], a.claimId);
      var e :| e in full.evidence && e.id == a.relations[k].evidenceId && e.claimId == a.claimId;
      var i :| 0 <= i < |full.evidence| && full.evidence[i] == e;
      assert x.evidence[|clip.evidence| + i] == RenamedEvidence(prefix)(e);
    }
  }

  lemma AllEvidenceHasItsClaim(clip: Report, full: Report, identity: NextVersion)
    requires forall e :: e in clip.evidence ==> HasClaim(clip.claims, e.claimId)
    requires forall e :: e in full.evidence ==> HasClaim(full.claims, e.claimId)
    ensures var x := Expanded(clip, full, identity); forall e :: e in x.evidence ==> HasClaim(x.claims, e.claimId)
  {
    hide Map, HasClaim, Prefix;
    var x := Expanded(clip, full, identity);
    forall e | e in x.evidence ensures HasClaim(x.claims, e.claimId) {
      var k :| 0 <= k < |x.evidence| && x.evidence[k] == e;
      if k < |clip.evidence| {
        assert clip.evidence[k] in clip.evidence;
        ClaimsGrow(clip, full, identity, e.claimId);
      } else {
        var f := full.evidence[k - |clip.evidence|];
        assert f in full.evidence;
        ClaimsGrow(clip, full, identity, f.claimId);
      }
    }
  }

  lemma AllAssessmentsSound(clip: Report, full: Report, identity: NextVersion)
    requires forall a :: a in clip.assessments ==> SoundAssessment(a, clip.claims, clip.evidence, clip.version)
    requires forall a :: a in full.assessments ==> SoundAssessment(a, full.claims, full.evidence, full.version)
    ensures var x := Expanded(clip, full, identity);
            forall b :: b in x.assessments ==> SoundAssessment(b, x.claims, x.evidence, x.version)
  {
    hide Map, SoundAssessment, HasClaim, Prefix;
    var x := Expanded(clip, full, identity);
    forall b | b in x.assessments ensures SoundAssessment(b, x.claims, x.evidence, x.version) {
      var k :| 0 <= k < |x.assessments| && x.assessments[k] == b;
      if k < |clip.assessments| {
        var a := clip.assessments[k];
        assert a in clip.assessments;
        ClaimsGrow(clip, full, identity, a.claimId);
        StaysSound(a, b, clip.claims, x.claims, clip.evidence, x.evidence, clip.version);
      } else {
        var a := full.assessments[k - |clip.assessments|];
        assert a in full.assessments;
        RenamedIsSound(clip, full, identity, a);
      }
    }
  }

  /** The check refuses an expansion exactly when a renamed identifier meets another one. */
  lemma RefusedExactlyForCollisions(clip: Report, full: Report, identity: NextVersion)
    requires CitationsValid(clip) && CitationsValid(full)
    ensures CitationsValid(Expanded(clip, full, identity)) <==> NoCollision(clip, full)
  {
    hide Map, HasClaim, DistinctEvidence, SoundAssessment;
    var prefix := Prefix(full.version);
    var x := Expanded(clip, full, identity);
    SameKeys(clip.assessments + Map(full.assessments, RenamedAssessment(prefix, 0)), x.assessments, AssessedClaim);
    hide DistinctlyAssessed;
    AllEvidenceHasItsClaim(clip, full, identity);
    AllAssessmentsSound(clip, full, identity);
  }

  /** When every identifier of the full video fits, only a meeting with the clip's own can refuse it. */
  lemma FittingIdsMeetOnlyTheClips(clip: Report, full: Report)
    requires CitationsValid(clip) && CitationsValid(full)
    requires forall e :: e in full.evidence ==> Fits(e.id, Prefix(full.version))
    requires forall a :: a in full.assessments ==> Fits(a.claimId, Prefix(full.version))
    ensures NoCollision(clip, full) <==>
            && (forall e, f :: e in clip.evidence && f in full.evidence ==> e.id != Prefixed(f.id, Prefix(full.version)))
            && (forall a, b :: a in clip.assessments && b in full.assessments ==>
                  a.claimId != Prefixed(b.claimId, Prefix(full.version)))
  {
    hide SoundAssessment, HasClaim, Map;
    var prefix := Prefix(full.version);
    FittingKeys(clip.evidence, full.evidence, RenamedEvidence(prefix), EvidenceId, prefix);
    FittingKeys(clip.assessments, full.assessments, RenamedAssessment(prefix, 0), AssessedClaim, prefix);
  }

  lemma FittingKeys<A(!new)>(s: seq<A>, t: seq<A>, rename: A -> A, key: A -> string, prefix: string)
    requires DistinctBy(s, key) && DistinctBy(t, key)
    requires forall x :: key(rename(x)) == Prefixed(key(x), prefix)
    requires forall x :: x in t ==> Fits(key(x), prefix)
    ensures DistinctBy(s + Map(t, rename), key) <==> forall x, y :: x in s && y in t ==> key(x) != Prefixed(key(y), prefix)
  {
    hide Map;
    forall i, j | 0 <= i < j < |t| ensures key(rename(t[i])) != key(rename(t[j])) {
      PrefixKeepsApart(key(t[i]), key(t[j]), prefix);
    }
    MapDistinct(t, rename, key, key);
    ConcatDistinct(s, Map(t, rename), key);
    var apart := forall x, y :: x in s && y in t ==> key(x) != Prefixed(key(y), prefix);
    if apart {
      forall id | Keyed(s, key, id) ensures !Keyed(Map(t, rename), key, id) {
        KeyedIn(s, key, id);
        assert forall j :: 0 <= j < |t| ==> t[j] in t;
      }
    } else {
      var x, y :| x in s && y in t && key(x) == Prefixed(key(y), prefix);
      var i :| 0 <= i < |s| && s[i] == x;
      var j :| 0 <= j < |t| && t[j] == y;
      assert key(Map(t, rename)[j]) == key(s[i]);
      assert Keyed(s, key, key(x)) && Keyed(Map(t, rename), key, key(x));
    }
  }

  /** Expanding again by the same version of the full video succeeds only if it has nothing to cite. */
  lemma SecondExpansion(clip: Report, full: Report, first: NextVersion, second: NextVersion)
    requires CitationsValid(full) && CitationsValid(Expanded(clip, full, first))
    ensures CitationsValid(Expanded(Expanded(clip, full, first), full, second)) <==>
            full.evidence == [] && full.assessments == []
  {
    hide Map, SoundAssessment, HasClaim;
    RefusedExactlyForCollisions(Expanded(clip, full, first), full, second);
    hide CitationsValid, Prefix;
    CollidesWithItself(clip, full, first);
  }

  lemma CollidesWithItself(clip: Report, full: Report, first: NextVersion)
    requires DistinctEvidence(Expanded(clip, full, first).evidence) && DistinctlyAssessed(Expanded(clip, full, first).assessments)
    ensures NoCollision(Expanded(clip, full, first), full) <==> full.evidence == [] && full.assessments == []
  {
    hide Map, Prefix;
    var prefix := Prefix(full.version);
    RepeatedKeys(clip.evidence, Map(full.evidence, RenamedEvidence(prefix)), Map(full.evidence, RenamedEvidence(prefix)),
                 EvidenceId);
    RepeatedKeys(Map(clip.assessments, Restamped(first.version)),
                 Map(full.assessments, RenamedAssessment(prefix, first.version)),
                 Map(full.assessments, RenamedAssessment(prefix, 0)), AssessedClaim);
  }

  /** The check never looks at claim identifiers: such a second expansion repeats every one of them. */
  lemma SecondExpansionRepeatsClaims(clip: Report, full: Report, first: NextVersion, second: NextVersion)
    requires full.claims != []
    ensures !DistinctClaims(Expanded(Expanded(clip, full, first), full, second).claims)
  {
    hide Map;
    var all := Expanded(Expanded(clip, full, first), full, second).claims;
    var n, m := |clip.claims|, |full.claims|;
    assert ClaimId(all[n]) == ClaimId(all[n + m]);
  }

  lemma RepeatedKeys<A(!new)>(s: seq<A>, t: seq<A>, u: seq<A>, key: A -> string)
    requires DistinctBy(s + t, key) && |t| == |u| && forall k :: 0 <= k < |t| ==> key(t[k]) == key(u[k])
    ensures DistinctBy(s + t + u, key) <==> |u| == 0
  {
    if |u| > 0 {
      var all := s + t + u;
      assert all[|s|] == t[0] && all[|s| + |t|] == u[0];
    }
  }

  /** No claim of the full video is renamed to this identifier. */
  ghost predicate NotRenamed(id: string, full: Report) {
    forall f :: f in full.claims ==> id != Prefixed(f.id, Prefix(full.version))
  }

  /** None of these claims has an identifier that the full video's claims are renamed to. */
  ghost predicate NoneMeets(claims: seq<Claim>, full: Report) {
    forall c :: c in claims ==> NotRenamed(c.id, full)
  }

  /** The claims of a full video whose identifiers are distinct and short enough to keep their prefix. */
  ghost predicate FittingClaims(full: Report) {
    DistinctClaims(full.claims) && forall c :: c in full.claims ==> Fits(c.id, Prefix(full.version))
  }

  /** An expansion keeps claim identifiers distinct exactly when no renamed one meets one of the clip's. */
  lemma ClaimsStayDistinctIff(clip: Report, full: Report, identity: NextVersion)
    requires DistinctClaims(clip.claims) && FittingClaims(full)
    ensures DistinctClaims(Expanded(clip, full, identity).claims) <==> NoneMeets(clip.claims, full)
  {
    hide Map;
    FittingKeys(clip.claims, full.claims, RenamedClaim(Prefix(full.version)), ClaimId, Prefix(full.version));
  }

  /** Identifiers brought in by an expansion can be recognised by their first letters. */
  lemma RenamedEvidenceShows(full: Report)
    ensures forall e :: e in Map(full.evidence, RenamedEvidence(Prefix(full.version))) ==> "fv" <= e.id
  {
    hide Digits;
    var prefix := Prefix(full.version);
    assert "fv" <= prefix;
    forall e | e in full.evidence ensures "fv" <= Prefixed(e.id, prefix) {
      assert "fv" <= prefix + e.id;
    }
    var renamed := Map(full.evidence, RenamedEvidence(prefix));
    forall e | e in renamed ensures "fv" <= e.id {
      var k :| 0 <= k < |renamed| && renamed[k] == e;
      assert full.evidence[k] in full.evidence;
    }
  }

  /** An expansion keeps what the clip said, and says of a full video's claim what the full video said. */
  lemma ExpansionKeepsTheClip(clip: Report, full: Report, identity: NextVersion)
    ensures var x := Expanded(clip, full, identity);
            && Carries(x, identity) && x.claims[..|clip.claims|] == clip.claims
            && |x.claims| == |clip.claims| + |full.claims|
            && (forall k :: 0 <= k < |full.claims| ==>
                  && x.claims[|clip.claims| + k].originalText == full.claims[k].originalText
                  && x.claims[|clip.claims| + k].proposition == full.claims[k].proposition)
            && (CitationsValid(full) ==> forall id :: NotRenamed(id, full) ==> SameAbout(clip, x, id))
  {
    hide Map, SoundAssessment, DistinctEvidence, DistinctlyAssessed;
    var prefix := Prefix(full.version);
    var x := Expanded(clip, full, identity);
    forall id | NotRenamed(id, full) && CitationsValid(full) ensures SameAbout(clip, x, id) {
      AboutTheClipOnly(clip, full, identity, id);
    }
  }

  /** An expansion has everything both said and nothing else: the clip's own lists, restamped, and behind
      them the full video's claims, its evidence from the same sources, and its assessments with the same
      labels and relations, each citing the evidence it cited. It is provisional when either was. */
  lemma ExpansionKeepsTheFullVideo(clip: Report, full: Report, identity: NextVersion)
    ensures var x, prefix := Expanded(clip, full, identity), Prefix(full.version);
            && |x.claims| == |clip.claims| + |full.claims| && |x.evidence| == |clip.evidence| + |full.evidence|
            && |x.assessments| == |clip.assessments| + |full.assessments|
            && x.evidence[..|clip.evidence|] == clip.evidence && (x.provisional <==> clip.provisional || full.provisional)
            && (forall k :: 0 <= k < |clip.assessments| ==>
                  x.assessments[k] == clip.assessments[k].(version := identity.version))
            && (forall k :: 0 <= k < |full.claims| ==> SameClaim(full.claims[k], x.claims[|clip.claims| + k], prefix))
            && (forall k :: 0 <= k < |full.evidence| ==> SameEvidence(full.evidence[k], x.evidence[|clip.evidence| + k], prefix))
            && (forall k :: 0 <= k < |full.assessments| ==>
                  SameJudgement(full.assessments[k], x.assessments[|clip.assessments| + k], prefix, identity.version))
  {
  }

  /** The same claim under its prefixed identifiers: nothing but those differs. */
  ghost predicate SameClaim(f: Claim, c: Claim, prefix: string) {
    && c.id == Prefixed(f.id, prefix) && c.occurrenceId == Prefixed(f.occurrenceId, prefix)
    && c.(id := f.id, occurrenceId := f.occurrenceId) == f
  }

  ghost predicate SameEvidence(f: Evidence, e: Evidence, prefix: string) {
    e.id == Prefixed(f.id, prefix) && e.claimId == Prefixed(f.claimId, prefix) && e.source == f.source
  }

  ghost predicate SameJudgement(f: Assessment, a: Assessment, prefix: string, version: nat) {
    && a.claimId == Prefixed(f.claimId, prefix) && a.version == version
    && a.overall == f.overall && a.provisional == f.provisional
    && |a.relations| == |f.relations|
    && forall k :: 0 <= k < |a.relations| ==>
         && a.relations[k].relation == f.relations[k].relation
         && a.relations[k].evidenceId == Prefixed(f.relations[k].evidenceId, prefix)
  }

  lemma AboutTheClipOnly(clip: Report, full: Report, identity: NextVersion, id: string)
    requires CitationsValid(full) && NotRenamed(id, full)
    ensures SameAbout(clip, Expanded(clip, full, identity), id)
  {
    hide Map, Filter, DistinctEvidence, DistinctlyAssessed;
    var prefix := Prefix(full.version);
    var x := Expanded(clip, full, identity);
    var more := Map(full.assessments, RenamedAssessment(prefix, identity.version));
    forall b | b in more ensures b.claimId != id {
      var k :| 0 <= k < |more| && more[k] == b;
      assert full.assessments[k] in full.assessments;
    }
    forall e | e in x.evidence && e !in clip.evidence ensures e.claimId != id {
      var k :| 0 <= k < |x.evidence| && x.evidence[k] == e;
      var f := full.evidence[k - |clip.evidence|];
      assert f in full.evidence;
    }
    var all := (a: Assessment) => true;
    FilterAll(clip.assessments, all);
    RestampedSame(clip, x, id, all, Restamped(identity.version), more);
  }

  lemma {:induction false} FilterAll(s: seq<Assessment>, keep: Assessment -> bool)
    requires forall a :: keep(a)
    ensures Filter(s, keep) == s
  {
    if s != [] {
      FilterAll(s[..|s| - 1], keep);
      assert s == s[..|s| - 1] + [s[|s| - 1]];
    }
  }
}
