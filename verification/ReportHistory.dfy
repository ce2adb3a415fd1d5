/** The published versions of one investigation: corrections, assessment runs and expansions race to
    add the next one. */
module ReportHistory {
  import opened Wrappers
  import opened Lists
  import opened Reports
  import opened Corrections
  import opened Assessing
  import opened EvidenceMerge
  import opened Expansion
  import opened ClaimNames

  datatype Reanalysis =
    | Correct(baseVersion: nat, claimId: string, proposition: string)
    | Deepen(baseVersion: nat)
    | ExpandTo(baseVersion: nat, source: string, confirmed: bool)

  datatype Refusal =
    | KeyReused | ConfirmationRequired | NoReport | Stale | BadCorrection(error: CorrectionError)
    | IdentityMismatch | CitationsInvalid(reason: CitationError)

  /** What a reanalysis request was answered. */
  datatype Receipt = Receipt(body: Reanalysis, publishedVersion: Option<nat>, targetVersion: nat)

  /** What an assessment run read when it began. */
  datatype Snapshot = Snapshot(base: Report, captureOpen: bool)

  datatype State = State(investigation: string, versions: seq<Report>, requests: map<string, Receipt>,
                         runs: map<nat, Snapshot>)

  datatype Event =
    | Request(key: string, body: Reanalysis, id: string, at: int)
    | Begin(run: nat, baseVersion: nat, captureOpen: bool)
    | Finish(run: nat, outcomes: seq<Outcome>, id: string, at: int)
    | Expand(baseVersion: nat, full: Report, id: string, at: int)

  // ----- One step -----

  function Identity(investigation: string, versions: seq<Report>, id: string, at: int): NextVersion {
    if versions == [] then NextVersion(id, investigation, 1, None, at)
    else
      var latest := versions[|versions| - 1];
      NextVersion(id, investigation, latest.version + 1, Some(latest.id), at)
  }

  predicate IsLatest(versions: seq<Report>, version: nat) {
    versions != [] && versions[|versions| - 1].version == version
  }

  ghost function Built(s: State, e: Event): (report: Option<Report>)
  {
    if s.versions == [] then None
    else
      var latest := s.versions[|s.versions| - 1];
      match e
      case Request(key, Correct(baseVersion, claimId, proposition), id, at) =>
        if key in s.requests || !IsLatest(s.versions, baseVersion) then None
        else
          (match CorrectedReport(latest, claimId, proposition, Identity(s.investigation, s.versions, id, at))
           case Success(r) => Some(r.(fixture := latest.fixture))
           case Failure(_) => None)
      case Request(_, _, _, _) => None
      case Begin(_, _, _) => None
      case Finish(run, outcomes, id, at) =>
        if run !in s.runs || !IsLatest(s.versions, s.runs[run].base.version) then None
        else
          var m := Merge(s.runs[run].base, outcomes, NewlyAssessed(outcomes), s.runs[run].captureOpen,
                         Identity(s.investigation, s.versions, id, at));
          if CitationsValid(m) then Some(m.(fixture := latest.fixture)) else None
      case Expand(baseVersion, full, id, at) =>
        if !IsLatest(s.versions, baseVersion) then None
        else
          var x := Expanded(latest, full, Identity(s.investigation, s.versions, id, at));
          if CitationsValid(x) then Some(x.(fixture := latest.fixture || full.fixture)) else None
  }

  function Answer(versions: seq<Report>, requests: map<string, Receipt>, key: string, body: Reanalysis): Result<Receipt, Refusal> {
    if key in requests then
      if requests[key].body == body then Success(requests[key]) else Failure(KeyReused)
    else if body.ExpandTo? && !body.confirmed then Failure(ConfirmationRequired)
    else if versions == [] then Failure(NoReport)
    else if !IsLatest(versions, body.baseVersion) then Failure(Stale)
    else
      match body
      case Correct(baseVersion, claimId, proposition) =>
        var found := FindClaim(versions[|versions| - 1].claims, claimId);
        if found.None? then Failure(BadCorrection(ClaimNotInVersion))
        else if found.value.proposition == proposition then Failure(BadCorrection(CorrectionUnchanged))
        else Success(Receipt(body, Some(baseVersion + 1), baseVersion + 1))
      case _ => Success(Receipt(body, None, body.baseVersion))
  }

  ghost function Next(s: State, e: Event): State {
    var built := Built(s, e);
    var versions := s.versions + if built.Some? then [built.value] else [];
    match e
    case Request(key, body, _, _) =>
      var answer := Answer(s.versions, s.requests, key, body);
      State(s.investigation, versions, if answer.Success? then s.requests[key := answer.value] else s.requests, s.runs)
    case Begin(run, baseVersion, captureOpen) =>
      if IsLatest(s.versions, baseVersion)
      then s.(runs := s.runs[run := Snapshot(s.versions[|s.versions| - 1], captureOpen)])
      else s
    case _ => s.(versions := versions)
  }

  // ----- What every reachable history keeps -----

  /** The next version was built on the previous one, in one of the three ways. */
  ghost predicate BuiltOn(previous: Report, next: Report) {
    || (exists claimId, proposition, identity ::
          CorrectedReport(previous, claimId, proposition, identity) == Success(next.(fixture := previous.fixture)))
    || (exists outcomes, captureOpen, identity ::
          next.(fixture := previous.fixture) == Merge(previous, outcomes, NewlyAssessed(outcomes), captureOpen, identity))
    || (exists full, identity :: next.(fixture := previous.fixture) == Expanded(previous, full, identity))
  }

  ghost predicate GoodVersion(investigation: string, versions: seq<Report>, k: nat)
    requires k < |versions|
  {
    && versions[k].version == k + 1 && versions[k].investigation == investigation && CitationsValid(versions[k])
    && versions[k].supersedes == (if k == 0 then None else Some(versions[k - 1].id))
    && (k > 0 ==> BuiltOn(versions[k - 1], versions[k]) && (versions[k - 1].fixture ==> versions[k].fixture))
  }

  ghost predicate Chain(investigation: string, versions: seq<Report>) {
    forall k: nat :: k < |versions| ==> GoodVersion(investigation, versions, k)
  }

  /** A run reads a published version and nothing else. */
  ghost predicate Published(versions: seq<Report>, base: Report) {
    1 <= base.version <= |versions| && versions[base.version - 1] == base
  }

  ghost predicate CorrectionOf(previous: Report, body: Reanalysis, next: Report)
    requires body.Correct?
  {
    exists identity :: CorrectedReport(previous, body.claimId, body.proposition, identity) == Success(next)
  }

  /** A receipt for a correction names the version that was published for it, next to its base. */
  ghost predicate Honoured(versions: seq<Report>, receipt: Receipt) {
    && 1 <= receipt.body.baseVersion <= |versions|
    && (receipt.body.Correct? <==> receipt.publishedVersion.Some?)
    && (receipt.body.Correct? ==>
          && receipt.body.baseVersion < |versions| && receipt.publishedVersion == Some(receipt.body.baseVersion + 1)
          && CorrectionOf(versions[receipt.body.baseVersion - 1], receipt.body, versions[receipt.body.baseVersion]))
    && receipt.targetVersion == receipt.body.baseVersion + if receipt.body.Correct? then 1 else 0
  }

  ghost predicate Inv(s: State) {
    && Chain(s.investigation, s.versions)
    && (forall run :: run in s.runs ==> Published(s.versions, s.runs[run].base))
    && (forall key :: key in s.requests ==> Honoured(s.versions, s.requests[key]))
  }

  lemma ChainGrows(investigation: string, versions: seq<Report>, report: Report)
    requires Chain(investigation, versions)
    requires GoodVersion(investigation, versions + [report], |versions|)
    ensures Chain(investigation, versions + [report])
  {
    var longer := versions + [report];
    forall k: nat | k < |versions| ensures GoodVersion(investigation, longer, k) {
      assert GoodVersion(investigation, versions, k);
    }
  }

  lemma FixtureMattersNot(r: Report, fixture: bool)
    ensures CitationsValid(r.(fixture := fixture)) <==> CitationsValid(r)
  {
  }

  lemma BuiltIsGood(s: State, e: Event)
    requires Inv(s) && Built(s, e).Some?
    ensures GoodVersion(s.investigation, s.versions + [Built(s, e).value], |s.versions|)
  {
    hide CitationsValid, Merge, Expanded, CorrectedReport;
    var latest := s.versions[|s.versions| - 1];
    var report := Built(s, e).value;
    assert GoodVersion(s.investigation, s.versions, |s.versions| - 1);
    match e
    case Request(key, Correct(baseVersion, claimId, proposition), id, at) =>
      var identity := Identity(s.investigation, s.versions, id, at);
      var r := CorrectedReport(latest, claimId, proposition, identity).value;
      CorrectionKeepsCitations(latest, claimId, proposition, identity);
      FixtureMattersNot(r, latest.fixture);
      CorrectionCarries(latest, claimId, proposition, identity);
    case Finish(run, outcomes, id, at) =>
      var identity := Identity(s.investigation, s.versions, id, at);
      assert Published(s.versions, s.runs[run].base) && s.runs[run].base == latest;
      FixtureMattersNot(Merge(latest, outcomes, NewlyAssessed(outcomes), s.runs[run].captureOpen, identity), latest.fixture);
      MergeCarries(latest, outcomes, s.runs[run].captureOpen, identity);
    case Expand(baseVersion, full, id, at) =>
      var identity := Identity(s.investigation, s.versions, id, at);
      FixtureMattersNot(Expanded(latest, full, identity), latest.fixture || full.fixture);
      ExpansionCarries(latest, full, identity);
  }

  lemma CorrectionCarries(base: Report, claimId: string, proposition: string, identity: NextVersion)
    requires CorrectedReport(base, claimId, proposition, identity).Success?
    ensures var r := CorrectedReport(base, claimId, proposition, identity).value;
            Carries(r, identity) && r.investigation == base.investigation && r.fixture == base.fixture
  {
  }

  lemma CorrectionSucceeds(base: Report, claimId: string, proposition: string, identity: NextVersion)
    ensures CorrectedReport(base, claimId, proposition, identity).Success? <==>
            FindClaim(base.claims, claimId).Some? && FindClaim(base.claims, claimId).value.proposition != proposition
  {
  }

  lemma MergeCarries(base: Report, outcomes: seq<Outcome>, captureOpen: bool, identity: NextVersion)
    ensures var m := Merge(base, outcomes, NewlyAssessed(outcomes), captureOpen, identity);
            Carries(m, identity) && m.investigation == base.investigation && m.fixture == base.fixture && m.claims == base.claims
  {
  }

  lemma ExpansionCarries(clip: Report, full: Report, identity: NextVersion)
    ensures var x := Expanded(clip, full, identity);
            Carries(x, identity) && x.investigation == clip.investigation && x.fixture == clip.fixture
  {
  }

  lemma ReceiptHonoured(s: State, key: string, body: Reanalysis, id: string, at: int)
    requires Inv(s) && key !in s.requests && Answer(s.versions, s.requests, key, body).Success?
    ensures Honoured(Next(s, Request(key, body, id, at)).versions, Answer(s.versions, s.requests, key, body).value)
  {
    hide CitationsValid, Merge, Expanded, BuiltOn, Published, CorrectedReport;
    assert GoodVersion(s.investigation, s.versions, |s.versions| - 1);
    if body.Correct? {
      var latest := s.versions[|s.versions| - 1];
      var identity := Identity(s.investigation, s.versions, id, at);
      CorrectionSucceeds(latest, body.claimId, body.proposition, identity);
      CorrectionCarries(latest, body.claimId, body.proposition, identity);
      assert Built(s, Request(key, body, id, at)) == Some(CorrectedReport(latest, body.claimId, body.proposition, identity).value);
    }
  }

  lemma StaysHonoured(versions: seq<Report>, longer: seq<Report>, receipt: Receipt)
    requires Honoured(versions, receipt) && versions <= longer
    ensures Honoured(longer, receipt)
  {
    hide CorrectionOf;
  }

  lemma VersionsGrow(s: State, e: Event)
    requires Inv(s)
    ensures Chain(s.investigation, Next(s, e).versions) && s.versions <= Next(s, e).versions
    ensures s.investigation == Next(s, e).investigation
  {
    hide Honoured, GoodVersion, Built;
    if Built(s, e).Some? {
      BuiltIsGood(s, e);
      ChainGrows(s.investigation, s.versions, Built(s, e).value);
    } else {
      assert s.versions + [] == s.versions;
    }
  }

  lemma LatestIsPublished(s: State)
    requires Inv(s) && s.versions != []
    ensures Published(s.versions, s.versions[|s.versions| - 1])
  {
    hide CitationsValid, BuiltOn;
    assert GoodVersion(s.investigation, s.versions, |s.versions| - 1);
  }

  lemma OneInvestigation(s: State, k: nat)
    requires Inv(s) && k < |s.versions|
    ensures s.versions[k].investigation == s.investigation
  {
    hide CitationsValid, BuiltOn;
    assert GoodVersion(s.investigation, s.versions, k);
  }

  lemma SnapshotIsPublished(s: State, run: nat)
    requires Inv(s) && run in s.runs
    ensures Published(s.versions, s.runs[run].base)
  {
  }

  lemma ReceiptsStay(s: State, e: Event, key: string)
    requires key in s.requests
    ensures key in Next(s, e).requests && Next(s, e).requests[key] == s.requests[key]
  {
    hide Built;
  }

  lemma KnownKeyBuildsNothing(s: State, key: string, body: Reanalysis, id: string, at: int)
    requires key in s.requests
    ensures Built(s, Request(key, body, id, at)).None?
  {
  }

  lemma SnapshotsPublished(s: State, e: Event)
    requires Inv(s)
    ensures forall run :: run in Next(s, e).runs ==> Published(Next(s, e).versions, Next(s, e).runs[run].base)
  {
    hide Honoured, GoodVersion, Built;
    if e.Begin? && IsLatest(s.versions, e.baseVersion) {
      assert GoodVersion(s.investigation, s.versions, |s.versions| - 1);
      LatestIsPublished(s);
    }
  }

  lemma StepKeepsInv(s: State, e: Event)
    requires Inv(s)
    ensures Inv(Next(s, e)) && s.versions <= Next(s, e).versions && s.investigation == Next(s, e).investigation
  {
    hide Honoured, GoodVersion, Built, Published, Answer;
    var n := Next(s, e);
    VersionsGrow(s, e);
    SnapshotsPublished(s, e);
    forall key | key in n.requests ensures Honoured(n.versions, n.requests[key]) {
      if key in s.requests {
        StaysHonoured(s.versions, n.versions, s.requests[key]);
        ReceiptsStay(s, e, key);
      } else {
        ReceiptHonoured(s, e.key, e.body, e.id, e.at);
      }
    }
  }

  ghost function Run(s: State, events: seq<Event>): State
    decreases |events|
  {
    if events == [] then s else Run(Next(s, events[0]), events[1..])
  }

  /** Whatever races to publish: versions are numbered from one without gaps, each supersedes the one
      before it and is built on it, every one passes the citation check, and none is ever changed. */
  lemma {:induction false} RunKeepsInv(s: State, events: seq<Event>)
    requires Inv(s)
    ensures Inv(Run(s, events)) && s.versions <= Run(s, events).versions
    ensures forall key :: key in s.requests ==> key in Run(s, events).requests && Run(s, events).requests[key] == s.requests[key]
    decreases |events|
  {
    hide Inv, Built;
    if events != [] {
      StepKeepsInv(s, events[0]);
      RunKeepsInv(Next(s, events[0]), events[1..]);
    }
  }

  // ----- Races -----

  /** A run publishes only on the version it read: once anything was published after it began, it never does. */
  lemma LateRunPublishesNothing(s: State, run: nat, events: seq<Event>, outcomes: seq<Outcome>, id: string, at: int)
    requires Inv(s) && run in s.runs && |s.versions| > s.runs[run].base.version
    requires forall k :: 0 <= k < |events| ==> !(events[k].Begin? && events[k].run == run)
    ensures var t := Run(s, events); Next(t, Finish(run, outcomes, id, at)) == t
  {
    hide Built, Inv, Run;
    RunKeepsInv(s, events);
    SnapshotStays(s, run, events);
    OvertakenBuildsNothing(Run(s, events), run, outcomes, id, at);
    assert Run(s, events).versions + [] == Run(s, events).versions;
  }

  lemma OvertakenBuildsNothing(s: State, run: nat, outcomes: seq<Outcome>, id: string, at: int)
    requires Inv(s) && run in s.runs && |s.versions| > s.runs[run].base.version
    ensures Built(s, Finish(run, outcomes, id, at)).None?
  {
    hide Merge, CitationsValid, BuiltOn, Honoured;
    assert GoodVersion(s.investigation, s.versions, |s.versions| - 1);
  }

  lemma {:induction false} SnapshotStays(s: State, run: nat, events: seq<Event>)
    requires run in s.runs
    requires forall k :: 0 <= k < |events| ==> !(events[k].Begin? && events[k].run == run)
    ensures run in Run(s, events).runs && Run(s, events).runs[run] == s.runs[run]
    decreases |events|
  {
    hide Built;
    if events != [] {
      assert !(events[0].Begin? && events[0].run == run);
      SnapshotStays(Next(s, events[0]), run, events[1..]);
    }
  }

  /** A repeated request is answered the same again and changes nothing. */
  lemma ReplayChangesNothing(s: State, key: string, body: Reanalysis, id: string, at: int, events: seq<Event>,
                             id2: string, at2: int)
    requires Inv(s) && Answer(s.versions, s.requests, key, body).Success?
    ensures var t := Run(Next(s, Request(key, body, id, at)), events);
            && Answer(t.versions, t.requests, key, body) == Answer(s.versions, s.requests, key, body)
            && Next(t, Request(key, body, id2, at2)) == t
  {
    hide Built, Inv;
    var n := Next(s, Request(key, body, id, at));
    StepKeepsInv(s, Request(key, body, id, at));
    RunKeepsInv(n, events);
    var t := Run(n, events);
    assert t.requests[key] == n.requests[key] == Answer(s.versions, s.requests, key, body).value;
    assert t.requests[key].body == body by { AnswerEchoesBody(s, key, body); }
    KnownKeyBuildsNothing(t, key, body, id2, at2);
    assert t.versions + [] == t.versions;
    assert t.requests[key := t.requests[key]] == t.requests;
  }

  lemma AnswerEchoesBody(s: State, key: string, body: Reanalysis)
    requires Answer(s.versions, s.requests, key, body).Success?
    ensures Answer(s.versions, s.requests, key, body).value.body == body
  {
  }

  /** An expansion that is built on the latest version publishes exactly when no renamed evidence or
      assessed claim of the full video meets another one. */
  lemma ExpansionPublishesIff(s: State, baseVersion: nat, full: Report, id: string, at: int)
    requires Inv(s) && CitationsValid(full)
    ensures Built(s, Expand(baseVersion, full, id, at)).Some? <==>
            IsLatest(s.versions, baseVersion) && NoCollision(s.versions[|s.versions| - 1], full)
  {
    hide CitationsValid, NoCollision, Expanded, BuiltOn;
    if IsLatest(s.versions, baseVersion) {
      assert GoodVersion(s.investigation, s.versions, |s.versions| - 1);
      RefusedExactlyForCollisions(s.versions[|s.versions| - 1], full, Identity(s.investigation, s.versions, id, at));
    }
  }

  // ----- The wording of a claim -----

  /** Every claim keeps its place, its identifier and the words it was first quoted with. */
  ghost predicate WordingKept(earlier: seq<Claim>, later: seq<Claim>) {
    && |earlier| <= |later|
    && forall k :: 0 <= k < |earlier| ==> later[k].id == earlier[k].id && later[k].originalText == earlier[k].originalText
  }

  /** A correction keeps the wording exactly when all claims of its identifier were quoted alike: it
      replaces every one of them by the first. */
  lemma CorrectionKeepsWordingIff(base: Report, claimId: string, proposition: string, identity: NextVersion)
    requires CorrectedReport(base, claimId, proposition, identity).Success?
    ensures WordingKept(base.claims, CorrectedReport(base, claimId, proposition, identity).value.claims) <==>
            forall c :: c in base.claims && c.id == claimId ==>
              c.originalText == FindClaim(base.claims, claimId).value.originalText
  {
    hide Filter, FindClaim;
    var found := FindClaim(base.claims, claimId).value;
    var claims := CorrectedReport(base, claimId, proposition, identity).value.claims;
    assert forall k :: 0 <= k < |base.claims| ==>
             claims[k] == if base.claims[k].id == claimId then Corrected(found, proposition, identity.createdAt) else base.claims[k];
    if WordingKept(base.claims, claims) {
      forall c | c in base.claims && c.id == claimId ensures c.originalText == found.originalText {
        var k :| 0 <= k < |base.claims| && base.claims[k] == c;
      }
    } else {
      var k :| 0 <= k < |base.claims| &&
               (claims[k].id != base.claims[k].id || claims[k].originalText != base.claims[k].originalText);
      assert base.claims[k] in base.claims;
    }
  }

  /** Later versions keep the wording of earlier ones. */
  ghost predicate Worded(versions: seq<Report>) {
    forall i, j :: 0 <= i <= j < |versions| ==> WordingKept(versions[i].claims, versions[j].claims)
  }

  ghost predicate VersionsQuoted(n: Naming, versions: seq<Report>) {
    forall r :: r in versions ==> AllQuoted(n, r.claims)
  }

  ghost predicate SourcesQuoted(n: Naming, events: seq<Event>) {
    forall e :: e in events && e.Expand? ==> QuotedSource(n, e.full)
  }

  /** A correction replaces claims of one identifier, and they were all quoted alike. */
  lemma CorrectionKeepsWording(n: Naming, base: Report, claimId: string, proposition: string, identity: NextVersion)
    requires NamesClaims(n) && AllQuoted(n, base.claims)
    requires CorrectedReport(base, claimId, proposition, identity).Success?
    ensures var r := CorrectedReport(base, claimId, proposition, identity).value;
            WordingKept(base.claims, r.claims) && AllQuoted(n, r.claims)
  {
    hide StandsFor, Filter;
    var r := CorrectedReport(base, claimId, proposition, identity).value;
    var found := FindClaim(base.claims, claimId).value;
    forall c | c in base.claims && c.id == claimId ensures c.originalText == found.originalText {
      OneWording(n, claimId, c.originalText, found.originalText);
    }
    CorrectionKeepsWordingIff(base, claimId, proposition, identity);
    forall c | c in r.claims ensures StandsFor(n, c.id, c.originalText) {
      var k :| 0 <= k < |r.claims| && r.claims[k] == c;
      assert base.claims[k] in base.claims;
    }
  }

  lemma BuiltKeepsWording(n: Naming, s: State, e: Event)
    requires Inv(s) && Built(s, e).Some? && NamesClaims(n) && VersionsQuoted(n, s.versions)
    requires e.Expand? ==> QuotedSource(n, e.full)
    ensures WordingKept(s.versions[|s.versions| - 1].claims, Built(s, e).value.claims)
    ensures AllQuoted(n, Built(s, e).value.claims)
  {
    hide CitationsValid, Merge, Expanded, CorrectedReport, NamesClaims, AllQuoted, QuotedSource;
    var latest, report := s.versions[|s.versions| - 1], Built(s, e).value;
    assert GoodVersion(s.investigation, s.versions, |s.versions| - 1);
    assert latest in s.versions;
    var identity := Identity(s.investigation, s.versions, e.id, e.at);
    match e
    case Request(_, Correct(_, claimId, proposition), _, _) =>
      CorrectionKeepsWording(n, latest, claimId, proposition, identity);
    case Finish(run, outcomes, _, _) =>
      assert Published(s.versions, s.runs[run].base);
      MergeCarries(latest, outcomes, s.runs[run].captureOpen, identity);
    case Expand(_, full, _, _) =>
      ExpansionKeepsTheClip(latest, full, identity);
      ExpansionStaysQuoted(n, latest, full, identity);
  }

  lemma WordingGrows(versions: seq<Report>, report: Report)
    requires versions != [] && Worded(versions)
    requires WordingKept(versions[|versions| - 1].claims, report.claims)
    ensures Worded(versions + [report])
  {
    var longer := versions + [report];
    forall i, j | 0 <= i <= j < |longer| ensures WordingKept(longer[i].claims, longer[j].claims) {
      if j == |versions| && i < j {
        assert WordingKept(versions[i].claims, versions[|versions| - 1].claims);
      }
    }
  }

  /** Whatever races to publish: later versions never reword, drop or move a claim of an earlier one,
      also where identifiers repeat, and every claim of every version carries the words it was extracted
      with. The full videos' reports may be versions of histories like this one. */
  lemma {:induction false} RunKeepsWording(n: Naming, s: State, events: seq<Event>)
    requires Inv(s) && NamesClaims(n) && VersionsQuoted(n, s.versions) && Worded(s.versions) && SourcesQuoted(n, events)
    ensures VersionsQuoted(n, Run(s, events).versions) && Worded(Run(s, events).versions)
    decreases |events|
  {
    hide Inv, Built, Worded, NamesClaims, AllQuoted, QuotedSource;
    if events != [] {
      assert events[0] in events;
      StepKeepsInv(s, events[0]);
      if Built(s, events[0]).Some? {
        BuiltKeepsWording(n, s, events[0]);
        NothingBuiltFromNothing(s, events[0]);
        WordingGrows(s.versions, Built(s, events[0]).value);
      } else {
        assert s.versions + [] == s.versions;
      }
      RunKeepsWording(n, Next(s, events[0]), events[1..]);
    }
  }

  /** The same from the version that extraction published first. */
  lemma ExtractedWordingStays(n: Naming, first: Report, events: seq<Event>)
    requires first.version == 1 && first.supersedes == None && CitationsValid(first)
    requires NamesClaims(n) && Extracted(n, first) && SourcesQuoted(n, events)
    ensures var t := Run(State(first.investigation, [first], map[], map[]), events);
            VersionsQuoted(n, t.versions) && Worded(t.versions)
  {
    hide CitationsValid, NamesClaims, Extracted, QuotedSource, AllQuoted, Run;
    ExtractedIsQuoted(n, first);
    RunKeepsWording(n, State(first.investigation, [first], map[], map[]), events);
  }

  lemma NothingBuiltFromNothing(s: State, e: Event)
    requires Built(s, e).Some?
    ensures s.versions != []
  {
  }

  // ----- Repeated identifiers -----

  /** In no expansion that is published, a renamed claim of the full video meets a claim of the report. */
  ghost predicate ClaimsNeverMeet(s: State, events: seq<Event>)
    decreases |events|
  {
    events != [] ==>
      && (events[0].Expand? && Built(s, events[0]).Some? ==> NoneMeets(s.versions[|s.versions| - 1].claims, events[0].full))
      && ClaimsNeverMeet(Next(s, events[0]), events[1..])
  }

  /** The full videos' own claims are distinct, and their identifiers fit behind a prefix. */
  ghost predicate FittingSources(events: seq<Event>) {
    forall e :: e in events && e.Expand? ==> FittingClaims(e.full)
  }

  ghost predicate AllDistinct(versions: seq<Report>) {
    forall r :: r in versions ==> DistinctClaims(r.claims)
  }

  lemma StepKeepsDistinctIff(s: State, e: Event)
    requires Inv(s) && AllDistinct(s.versions) && (e.Expand? ==> FittingClaims(e.full))
    ensures AllDistinct(Next(s, e).versions) <==>
            (e.Expand? && Built(s, e).Some? ==> NoneMeets(s.versions[|s.versions| - 1].claims, e.full))
  {
    hide Inv, Built, FittingClaims, NoneMeets, DistinctClaims;
    if Built(s, e).Some? {
      BuiltIsDistinctIff(s, e);
      var report := Built(s, e).value;
      assert report in s.versions + [report];
    } else {
      assert s.versions + [] == s.versions;
    }
  }

  lemma BuiltIsDistinctIff(s: State, e: Event)
    requires Inv(s) && AllDistinct(s.versions) && Built(s, e).Some? && (e.Expand? ==> FittingClaims(e.full))
    ensures DistinctClaims(Built(s, e).value.claims) <==>
            (e.Expand? ==> NoneMeets(s.versions[|s.versions| - 1].claims, e.full))
  {
    hide CitationsValid, DistinctClaims, Merge, Expanded, CorrectedReport, FittingClaims, NoneMeets;
    var latest := s.versions[|s.versions| - 1];
    assert latest in s.versions && GoodVersion(s.investigation, s.versions, |s.versions| - 1);
    var identity := Identity(s.investigation, s.versions, e.id, e.at);
    match e
    case Request(_, Correct(_, claimId, proposition), _, _) =>
      CorrectionTouchesOneClaim(latest, claimId, proposition, identity);
    case Finish(run, outcomes, _, _) =>
      assert Published(s.versions, s.runs[run].base);
      MergeCarries(latest, outcomes, s.runs[run].captureOpen, identity);
    case Expand(_, full, _, _) =>
      ClaimsStayDistinctIff(latest, full, identity);
  }

  /** Over a whole run, no version repeats a claim identifier exactly when no published expansion brings
      in one that the report already has. */
  lemma {:induction false} RunKeepsDistinctIff(s: State, events: seq<Event>)
    requires Inv(s) && AllDistinct(s.versions) && FittingSources(events)
    ensures AllDistinct(Run(s, events).versions) <==> ClaimsNeverMeet(s, events)
    decreases |events|
  {
    hide Inv, Built, Next, NoneMeets, FittingClaims, DistinctClaims;
    if events != [] {
      var next := Next(s, events[0]);
      assert events[0] in events;
      StepKeepsDistinctIff(s, events[0]);
      StepKeepsInv(s, events[0]);
      if AllDistinct(next.versions) {
        RunKeepsDistinctIff(next, events[1..]);
      } else {
        RunKeepsInv(next, events[1..]);
        assert forall r :: r in next.versions ==> r in Run(next, events[1..]).versions;
      }
    }
  }

  // ----- Assessment runs and the citation check -----

  ghost predicate AllNamed(versions: seq<Report>, digest: (string, string) -> string) {
    forall r :: r in versions ==> Named(r.evidence, digest)
  }

  /** The evidence that assessment runs bring in is named by its digest. */
  ghost predicate DigestedRuns(events: seq<Event>, digest: (string, string) -> string) {
    forall e, o :: e in events && e.Finish? && o in e.outcomes ==> Digested(o.evidence, digest)
  }

  lemma BuiltIsNamed(s: State, e: Event, digest: (string, string) -> string)
    requires Inv(s) && AllNamed(s.versions, digest) && Built(s, e).Some?
    requires e.Finish? ==> forall o :: o in e.outcomes ==> Digested(o.evidence, digest)
    ensures Named(Built(s, e).value.evidence, digest)
  {
    hide Inv, CitationsValid, Digested, Filter, Map, NewEvidence;
    var latest := s.versions[|s.versions| - 1];
    assert Named(latest.evidence, digest);
    match e
    case Request(_, _, _, _) =>
    case Finish(run, outcomes, id, at) =>
      SnapshotIsPublished(s, run);
      assert s.runs[run].base in s.versions;
      MergedEvidenceNamed(s.runs[run].base, outcomes, s.runs[run].captureOpen,
                          Identity(s.investigation, s.versions, id, at), digest);
    case Expand(_, full, _, _) =>
      RenamedEvidenceShows(full);
  }

  lemma {:induction false} EvidenceStaysNamed(s: State, events: seq<Event>, digest: (string, string) -> string)
    requires Inv(s) && AllNamed(s.versions, digest) && DigestedRuns(events, digest)
    ensures AllNamed(Run(s, events).versions, digest)
    decreases |events|
  {
    hide Inv, Built, Digested, Named;
    if events != [] {
      StepKeepsInv(s, events[0]);
      if Built(s, events[0]).Some? { BuiltIsNamed(s, events[0], digest); }
      EvidenceStaysNamed(Next(s, events[0]), events[1..], digest);
    }
  }

  /** Over every history, a run that ends on the version it read, with the outcomes of the assessor for
      claims of that version, publishes exactly when it assessed no claim identifier twice: the citation
      check refuses nothing else. */
  lemma RunPublishesIff(s: State, events: seq<Event>, digest: (string, string) -> string,
                        run: nat, outcomes: seq<Outcome>, id: string, at: int)
    requires Inv(s) && AllNamed(s.versions, digest) && DigestedRuns(events, digest) && Digests(digest)
    requires var t := Run(s, events);
             && run in t.runs && IsLatest(t.versions, t.runs[run].base.version)
             && OutcomesFor(t.runs[run].base, outcomes, digest)
    ensures Built(Run(s, events), Finish(run, outcomes, id, at)).Some? <==> AssessedOnce(outcomes)
  {
    hide Run, Merge, Digests, OutcomesFor, Named, BuiltOn, Honoured, CitationsValid, AssessedOnce;
    var t := Run(s, events);
    RunKeepsInv(s, events);
    EvidenceStaysNamed(s, events, digest);
    var base := t.runs[run].base;
    SnapshotIsPublished(t, run);
    assert base in t.versions && GoodVersion(t.investigation, t.versions, base.version - 1);
    RefusedOnlyForRepeats(base, outcomes, t.runs[run].captureOpen, Identity(t.investigation, t.versions, id, at), digest);
  }

  /** The first claim of this identifier exists and means something else. */
  ghost predicate Corrects(claims: seq<Claim>, claimId: string, proposition: string) {
    exists k: nat :: CorrectsAt(claims, claimId, proposition, k)
  }

  /** Claim k is the first of this identifier and means something else. */
  ghost predicate CorrectsAt(claims: seq<Claim>, claimId: string, proposition: string, k: nat) {
    && k < |claims| && claims[k].id == claimId && claims[k].proposition != proposition
    && forall j :: 0 <= j < k ==> claims[j].id != claimId
  }

  lemma CorrectsLater(claims: seq<Claim>, claimId: string, proposition: string, k: nat)
    requires claims != [] && claims[0].id != claimId
    ensures CorrectsAt(claims[1..], claimId, proposition, k) <==> CorrectsAt(claims, claimId, proposition, k + 1)
  {
    var rest := claims[1..];
    if CorrectsAt(rest, claimId, proposition, k) {
      forall j | 0 <= j < k + 1 ensures claims[j].id != claimId { assert j > 0 ==> rest[j - 1] == claims[j]; }
    }
    if CorrectsAt(claims, claimId, proposition, k + 1) {
      forall j | 0 <= j < k ensures rest[j].id != claimId { assert rest[j] == claims[j + 1]; }
    }
  }

  lemma {:induction false} FoundCorrects(claims: seq<Claim>, claimId: string, proposition: string)
    ensures var found := FindClaim(claims, claimId);
            found.Some? && found.value.proposition != proposition <==> Corrects(claims, claimId, proposition)
  {
    if claims != [] && claims[0].id != claimId {
      FoundCorrects(claims[1..], claimId, proposition);
      hide CorrectsAt;
      forall k: nat { CorrectsLater(claims, claimId, proposition, k); }
      assert !CorrectsAt(claims, claimId, proposition, 0) by { NotAtFirst(claims, claimId, proposition); }
      assert forall k: nat :: CorrectsAt(claims, claimId, proposition, k) ==>
               k > 0 && CorrectsAt(claims[1..], claimId, proposition, k - 1);
    } else if claims != [] {
      FirstDecides(claims, claimId, proposition);
    }
  }

  lemma NotAtFirst(claims: seq<Claim>, claimId: string, proposition: string)
    requires claims != [] && claims[0].id != claimId
    ensures !CorrectsAt(claims, claimId, proposition, 0)
  {
  }

  lemma FirstDecides(claims: seq<Claim>, claimId: string, proposition: string)
    requires claims != [] && claims[0].id == claimId
    ensures Corrects(claims, claimId, proposition) <==> claims[0].proposition != proposition
  {
    if claims[0].proposition != proposition { assert CorrectsAt(claims, claimId, proposition, 0); }
  }

  // ----- The tables themselves -----

  class History {
    const investigation: string
    var versions: seq<Report>
    var requests: map<string, Receipt>
    var runs: map<nat, Snapshot>

    function Current(): State
      reads this
    {
      State(investigation, versions, requests, runs)
    }

    constructor (first: Report)
      requires first.version == 1 && first.supersedes == None && CitationsValid(first)
      ensures Inv(Current()) && versions == [first] && requests == map[] && runs == map[]
    {
      investigation, versions, requests, runs := first.investigation, [first], map[], map[];
    }

    /** Adds a version under the row lock, unless it does not carry the identity it was given. */
    method Publish(identity: NextVersion, built: Report, fixture: bool) returns (published: Result<Report, Refusal>)
      modifies this`versions
      ensures published.Success? <==>
              && built.id == identity.id && built.investigation == identity.investigation
              && built.version == identity.version && built.supersedes == identity.supersedes
      ensures published.Success? ==>
                published.value == built.(fixture := fixture) && versions == old(versions) + [published.value]
      ensures published.Failure? ==> published.error == IdentityMismatch && versions == old(versions)
    {
      var report := built.(fixture := fixture);
      if report.id != identity.id || report.investigation != identity.investigation
         || report.version != identity.version || report.supersedes != identity.supersedes {
        return Failure(IdentityMismatch);
      }
      versions := versions + [report];
      return Success(report);
    }

    /** Answers a reanalysis request; a correction publishes its version in the same transaction. A known
        key is answered as before or refused; a new one is refused without a confirmation, for any version
        but the latest, and for a correction that names no claim of it or changes nothing. */
    method Reanalyse(key: string, body: Reanalysis, id: string, at: int) returns (answer: Result<Receipt, Refusal>)
      requires Inv(Current())
      modifies this
      ensures answer == Answer(old(versions), old(requests), key, body)
      ensures key in old(requests) ==>
                answer == (if old(requests)[key].body == body then Success(old(requests)[key]) else Failure(KeyReused))
      ensures key !in old(requests) ==>
                (answer.Success? <==>
                   && (body.ExpandTo? ==> body.confirmed)
                   && old(versions) != [] && old(versions)[|old(versions)| - 1].version == body.baseVersion
                   && (body.Correct? ==> Corrects(old(versions)[|old(versions)| - 1].claims, body.claimId, body.proposition)))
      ensures key !in old(requests) && answer.Success? ==>
                && requests == old(requests)[key := answer.value] && answer.value.body == body
                && |versions| == |old(versions)| + (if body.Correct? then 1 else 0)
                && answer.value.publishedVersion == (if body.Correct? then Some(body.baseVersion + 1) else None)
      ensures key !in old(requests) && answer.Failure? ==>
                answer.error == if body.ExpandTo? && !body.confirmed then ConfirmationRequired
                                else if old(versions) == [] then NoReport
                                else if old(versions)[|old(versions)| - 1].version != body.baseVersion then Stale
                                else if HasClaim(old(versions)[|old(versions)| - 1].claims, body.claimId)
                                     then BadCorrection(CorrectionUnchanged)
                                else BadCorrection(ClaimNotInVersion)
      ensures key in old(requests) || answer.Failure? ==> versions == old(versions) && requests == old(requests)
      ensures Current() == Next(old(Current()), Request(key, body, id, at)) && Inv(Current())
    {
      hide Inv, CitationsValid, Merge, Expanded, CorrectedReport;
      StepKeepsInv(Current(), Request(key, body, id, at));
      assert versions + [] == versions;
      if body.Correct? && versions != [] { FoundCorrects(versions[|versions| - 1].claims, body.claimId, body.proposition); }
      hide Corrects;
      if key in requests {
        assert requests[key := requests[key]] == requests;
        return if requests[key].body == body then Success(requests[key]) else Failure(KeyReused);
      }
      if body.ExpandTo? && !body.confirmed {
        return Failure(ConfirmationRequired);
      }
      if versions == [] {
        return Failure(NoReport);
      }
      var latest := versions[|versions| - 1];
      if body.baseVersion != latest.version {
        return Failure(Stale);
      }
      var receipt := Receipt(body, None, body.baseVersion);
      if body.Correct? {
        var identity := Identity(investigation, versions, id, at);
        var corrected := CorrectedReport(latest, body.claimId, body.proposition, identity);
        CorrectionSucceeds(latest, body.claimId, body.proposition, identity);
        if corrected.Failure? {
          WhichCorrectionError(latest, body.claimId, body.proposition, identity);
          return Failure(BadCorrection(corrected.error));
        }
        CorrectionCarries(latest, body.claimId, body.proposition, identity);
        OneInvestigation(Current(), |versions| - 1);
        var published := Publish(identity, corrected.value, latest.fixture);
        receipt := Receipt(body, Some(published.value.version), published.value.version);
      }
      requests := requests[key := receipt];
      return Success(receipt);
    }

    /** An assessment run reads the latest version, if it is still the one it was queued for. */
    method BeginRun(run: nat, baseVersion: nat, captureOpen: bool) returns (begun: bool)
      requires Inv(Current())
      modifies this
      ensures begun <==> old(versions) != [] && old(versions)[|old(versions)| - 1].version == baseVersion
      ensures versions == old(versions) && requests == old(requests)
      ensures runs == if begun then old(runs)[run := Snapshot(versions[|versions| - 1], captureOpen)] else old(runs)
      ensures Current() == Next(old(Current()), Begin(run, baseVersion, captureOpen)) && Inv(Current())
    {
      hide Inv, CitationsValid, Merge, Expanded, CorrectedReport;
      StepKeepsInv(Current(), Begin(run, baseVersion, captureOpen));
      if versions == [] || versions[|versions| - 1].version != baseVersion {
        return false;
      }
      runs := runs[run := Snapshot(versions[|versions| - 1], captureOpen)];
      return true;
    }

    /** The end of a run: it publishes unless another version came first or the citation check refuses. */
    method FinishRun(run: nat, outcomes: seq<Outcome>, id: string, at: int) returns (published: Option<Report>)
      requires Inv(Current()) && run in runs
      modifies this
      ensures published == old(Built(Current(), Finish(run, outcomes, id, at)))
      ensures versions == old(versions) + if published.Some? then [published.value] else []
      ensures published.Some? ==> published.value.fixture == old(versions)[|old(versions)| - 1].fixture
      ensures Current() == Next(old(Current()), Finish(run, outcomes, id, at)) && Inv(Current())
    {
      hide Inv, CitationsValid, Merge, Expanded, CorrectedReport;
      StepKeepsInv(Current(), Finish(run, outcomes, id, at));
      assert versions + [] == versions;
      var snapshot := runs[run];
      if versions == [] || versions[|versions| - 1].version != snapshot.base.version {
        return None;
      }
      var identity := Identity(investigation, versions, id, at);
      var merged := MergedVersion(snapshot.base, outcomes, NewlyAssessed(outcomes), snapshot.captureOpen, identity);
      if merged.Failure? {
        return None;
      }
      MergeCarries(snapshot.base, outcomes, snapshot.captureOpen, identity);
      SnapshotIsPublished(Current(), run);
      OneInvestigation(Current(), snapshot.base.version - 1);
      var added := Publish(identity, merged.value, versions[|versions| - 1].fixture);
      return Some(added.value);
    }

    /** The end of an expansion, once the full video has a report. */
    method FinishExpansion(baseVersion: nat, full: Report, id: string, at: int) returns (published: Option<Report>)
      requires Inv(Current())
      modifies this
      ensures published == old(Built(Current(), Expand(baseVersion, full, id, at)))
      ensures versions == old(versions) + if published.Some? then [published.value] else []
      ensures published.Some? ==>
                (published.value.fixture <==> old(versions)[|old(versions)| - 1].fixture || full.fixture)
      ensures Current() == Next(old(Current()), Expand(baseVersion, full, id, at)) && Inv(Current())
    {
      hide Inv, CitationsValid, Merge, Expanded, CorrectedReport;
      StepKeepsInv(Current(), Expand(baseVersion, full, id, at));
      assert versions + [] == versions;
      if versions == [] || versions[|versions| - 1].version != baseVersion {
        return None;
      }
      var latest := versions[|versions| - 1];
      var identity := Identity(investigation, versions, id, at);
      var expanded := ExpandedVersion(latest, full, identity);
      if expanded.Failure? {
        return None;
      }
      ExpansionCarries(latest, full, identity);
      OneInvestigation(Current(), |versions| - 1);
      var added := Publish(identity, expanded.value, latest.fixture || full.fixture);
      return Some(added.value);
    }
  }

  lemma WhichCorrectionError(base: Report, claimId: string, proposition: string, identity: NextVersion)
    requires CorrectedReport(base, claimId, proposition, identity).Failure?
    ensures CorrectedReport(base, claimId, proposition, identity).error ==
            if FindClaim(base.claims, claimId).None? then ClaimNotInVersion else CorrectionUnchanged
  {
  }
}
