/** The jobs behind a reanalysis: each publishes a result and, in the same transaction, queues the next.
    Leased and running are one state here; owners, generations and results' contents are not modelled. */
module EvidenceChain {
  import opened Wrappers

  const MAX_EXPANSION_POLLS: nat := 12

  datatype Reason = Correction | Deeper | FullVideo

  datatype Payload = Payload(baseVersion: nat, scope: Option<seq<string>>, deeper: bool, request: Option<nat>)

  datatype Work =
    | Reanalysis(request: nat, reason: Reason, baseVersion: nat, claims: seq<string>, poll: nat)
    | Retrieval(plan: Payload)
    | Assessment(plan: Payload, retrieval: nat)

  /** What a stage key is a digest of. The claims of a retrieval are sorted first, so their order does
      not matter. */
  datatype Key =
    | ReanalysisKey(request: nat, poll: nat)
    | RetrievalKey(baseVersion: nat, scope: Option<multiset<string>>, deeper: bool, askedBy: Option<nat>)
    | AssessmentKey(retrieval: nat)

  datatype StageResult = Planned(plan: Payload) | Waiting(poll: nat) | Found(claims: nat, superseded: bool) | Ended

  datatype JobState = Queued | Leased | Published(result: StageResult) | Cancelled | Failed

  datatype Job = Job(work: Work, state: JobState, cancelRequested: bool, token: nat, receipt: bool)

  /** The jobs in the order they were queued, and the job each reanalysis request points at. */
  datatype Tables = Tables(jobs: seq<Job>, requests: map<nat, nat>)

  datatype Event =
    | Ask(request: nat, reason: Reason, baseVersion: nat, claims: seq<string>)
    | QueueRetrieval(baseVersion: nat, scope: Option<seq<string>>, deeper: bool)
    | Claim(job: nat)
    | Return(job: nat)
    | Fail(job: nat)
    | Publish(job: nat, token: nat, result: StageResult)
    | Cancel(job: nat)

  // ----- Steps -----

  function KeyOf(work: Work): Key {
    match work
    case Reanalysis(request, _, _, _, poll) => ReanalysisKey(request, poll)
    case Retrieval(plan) =>
      var scope := match plan.scope case None => None case Some(claims) => Some(multiset(claims));
      RetrievalKey(plan.baseVersion, scope, plan.deeper, plan.request)
    case Assessment(_, retrieval) => AssessmentKey(retrieval)
  }

  function RequestOf(work: Work): Option<nat> {
    match work
    case Reanalysis(request, _, _, _, _) => Some(request)
    case Retrieval(plan) => plan.request
    case Assessment(plan, _) => plan.request
  }

  /** What the handler of a stage may return for its payload. */
  predicate CanReturn(work: Work, result: StageResult) {
    match work
    case Reanalysis(request, reason, baseVersion, claims, poll) =>
      if reason.FullVideo? then result.Ended? || (result == Waiting(poll) && poll < MAX_EXPANSION_POLLS)
      else result == Planned(Payload(baseVersion, if reason.Correction? then Some(claims) else None, reason.Deeper?, Some(request)))
    case Retrieval(_) => result.Found?
    case Assessment(_, _) => result.Ended?
  }

  function Successor(job: nat, work: Work, result: StageResult): Option<Work> {
    match (work, result)
    case (Reanalysis(_, _, _, _, _), Planned(plan)) => Some(Retrieval(plan))
    case (Reanalysis(request, reason, baseVersion, claims, _), Waiting(poll)) =>
      Some(Reanalysis(request, reason, baseVersion, claims, poll + 1))
    case (Retrieval(plan), Found(claims, superseded)) =>
      if claims > 0 && !superseded then Some(Assessment(plan, job)) else None
    case _ => None
  }

  /** The job that already holds a stage key. */
  function Holder(jobs: seq<Job>, key: Key): (found: Option<nat>)
    ensures found.Some? ==> found.value < |jobs| && KeyOf(jobs[found.value].work) == key
    ensures found.None? ==> forall i :: 0 <= i < |jobs| ==> KeyOf(jobs[i].work) != key
  {
    if jobs == [] then None
    else if KeyOf(jobs[|jobs| - 1].work) == key then Some(|jobs| - 1)
    else Holder(jobs[..|jobs| - 1], key)
  }

  /** Inserts a queued job unless its stage key is taken; either way, the job with that key. */
  function Enqueue(jobs: seq<Job>, work: Work): (seq<Job>, nat) {
    var holder := Holder(jobs, KeyOf(work));
    if holder.Some? then (jobs, holder.value) else (jobs + [Job(work, Queued, false, 0, false)], |jobs|)
  }

  predicate Fenced(t: Tables, job: nat, token: nat) {
    job < |t.jobs| && t.jobs[job].state.Leased? && t.jobs[job].token == token && !t.jobs[job].cancelRequested
  }

  function PublishStage(t: Tables, job: nat, token: nat, result: StageResult): Tables {
    if !Fenced(t, job, token) then t
    else
      var work := t.jobs[job].work;
      var marked := t.jobs[job := t.jobs[job].(state := StageState(result))];
      match Successor(job, work, result)
      case None => t.(jobs := marked)
      case Some(next) =>
        var (jobs, successor) := Enqueue(marked, next);
        var request := RequestOf(work);
        Tables(jobs, if request.Some? then t.requests[request.value := successor] else t.requests)
  }

  function StageState(result: StageResult): JobState {
    JobState.Published(result)
  }

  /** A queued job is cancelled at once, a leased one is flagged for its worker. */
  function RequestCancel(jobs: seq<Job>, job: nat): seq<Job>
    requires job < |jobs|
  {
    var j := jobs[job];
    match j.state
    case Queued => jobs[job := j.(state := Cancelled, cancelRequested := true)]
    case Leased => jobs[job := j.(cancelRequested := true)]
    case _ => jobs
  }

  /** Cancels a job, or the job its request has been handed on to; a repeated call replays its receipt. */
  function CancelOwned(t: Tables, job: nat): Tables
    requires job < |t.jobs|
  {
    var j := t.jobs[job];
    if j.receipt then t
    else
      var request := RequestOf(j.work);
      var current := if request.Some? && request.value in t.requests then Some(t.requests[request.value]) else None;
      var jobs :=
        if j.state.Cancelled? then t.jobs
        else if j.state.Published? && current.Some? && current.value != job && current.value < |t.jobs| then
          if t.jobs[current.value].state.Cancelled? then t.jobs else RequestCancel(t.jobs, current.value)
        else RequestCancel(t.jobs, job);
      t.(jobs := jobs[job := jobs[job].(receipt := true)])
  }

  function Next(t: Tables, e: Event): Tables {
    match e
    case Ask(request, reason, baseVersion, claims) =>
      if request in t.requests then t
      else
        var (jobs, job) := Enqueue(t.jobs, Reanalysis(request, reason, baseVersion, claims, 0));
        Tables(jobs, t.requests[request := job])
    case QueueRetrieval(baseVersion, scope, deeper) =>
      t.(jobs := Enqueue(t.jobs, Retrieval(Payload(baseVersion, scope, deeper, None))).0)
    case Claim(job) =>
      if job < |t.jobs| && t.jobs[job].state.Queued?
      then t.(jobs := t.jobs[job := t.jobs[job].(state := Leased, token := t.jobs[job].token + 1)]) else t
    case Return(job) =>
      if job < |t.jobs| && t.jobs[job].state.Leased?
      then t.(jobs := t.jobs[job := t.jobs[job].(state := if t.jobs[job].cancelRequested then Cancelled else Queued)]) else t
    case Fail(job) =>
      if job < |t.jobs| && t.jobs[job].state.Leased?
      then t.(jobs := t.jobs[job := t.jobs[job].(state := Failed)]) else t
    case Publish(job, token, result) =>
      if job < |t.jobs| && CanReturn(t.jobs[job].work, result) then PublishStage(t, job, token, result) else t
    case Cancel(job) =>
      if job < |t.jobs| then CancelOwned(t, job) else t
  }

  function Run(t: Tables, events: seq<Event>): Tables
    decreases |events|
  {
    if events == [] then t else Run(Next(t, events[0]), events[1..])
  }

  // ----- Invariant -----

  /** How many jobs may still follow in the same chain. */
  function Rank(work: Work): int {
    match work
    case Reanalysis(_, _, _, _, poll) => 2 + MAX_EXPANSION_POLLS - poll
    case Retrieval(_) => 1
    case Assessment(_, _) => 0
  }

  predicate IsRoot(work: Work) {
    (work.Reanalysis? && work.poll == 0) || (work.Retrieval? && work.plan.request.None?)
  }

  predicate HandsOnTo(jobs: seq<Job>, j: nat, work: Work)
    requires j < |jobs|
  {
    jobs[j].state.Published? && Successor(j, jobs[j].work, jobs[j].state.result) == Some(work)
  }

  /** A job that is no root exists only because an earlier job published a result that called for it. */
  ghost predicate Justified(jobs: seq<Job>, i: nat)
    requires i < |jobs|
  {
    IsRoot(jobs[i].work) || exists j: nat :: j < i && HandsOnTo(jobs, j, jobs[i].work)
  }

  /** A result that calls for a successor has one. */
  ghost predicate HandedOn(jobs: seq<Job>, i: nat)
    requires i < |jobs|
  {
    jobs[i].state.Published? && Successor(i, jobs[i].work, jobs[i].state.result).Some? ==>
      exists k: nat :: i < k < |jobs| && HandsOnTo(jobs, i, jobs[k].work)
  }

  predicate Sound(job: Job) {
    && (job.state.Published? ==> CanReturn(job.work, job.state.result))
    && (job.work.Reanalysis? ==> job.work.poll <= MAX_EXPANSION_POLLS)
  }

  predicate KeysUnique(jobs: seq<Job>) {
    forall i, j :: 0 <= i < j < |jobs| ==> KeyOf(jobs[i].work) != KeyOf(jobs[j].work)
  }

  ghost predicate AllJustified(jobs: seq<Job>) {
    forall i: nat :: i < |jobs| ==> Justified(jobs, i) && HandedOn(jobs, i) && Sound(jobs[i])
  }

  /** Along the jobs of one request the rank goes down. */
  predicate RanksDescend(jobs: seq<Job>) {
    forall i, j :: 0 <= i < j < |jobs| && RequestOf(jobs[i].work).Some? && RequestOf(jobs[i].work) == RequestOf(jobs[j].work)
      ==> Rank(jobs[i].work) > Rank(jobs[j].work)
  }

  ghost predicate JobsOk(jobs: seq<Job>) {
    KeysUnique(jobs) && AllJustified(jobs) && RanksDescend(jobs)
  }

  predicate HasHandedOn(jobs: seq<Job>, i: nat)
    requires i < |jobs|
  {
    jobs[i].state.Published? && Successor(i, jobs[i].work, jobs[i].state.result).Some?
  }

  /** A request points at the newest job of its chain; every older one has handed on. */
  ghost predicate PointsAtNewest(t: Tables, request: nat)
    requires request in t.requests
  {
    var p := t.requests[request];
    && p < |t.jobs| && RequestOf(t.jobs[p].work) == Some(request) && !HasHandedOn(t.jobs, p)
    && forall i: nat :: i < |t.jobs| && RequestOf(t.jobs[i].work) == Some(request) && i != p ==> i < p && HasHandedOn(t.jobs, i)
  }

  /** Nothing can be added to the chain of this request any more. */
  predicate Stopped(t: Tables, request: nat) {
    request in t.requests && t.requests[request] < |t.jobs|
    && var j := t.jobs[t.requests[request]];
       j.cancelRequested || j.state.Cancelled? || j.state.Failed? || j.state.Published?
  }

  ghost predicate Inv(t: Tables) {
    && JobsOk(t.jobs)
    && (forall request :: request in t.requests ==> PointsAtNewest(t, request))
    && (forall i :: 0 <= i < |t.jobs| && RequestOf(t.jobs[i].work).Some? ==> RequestOf(t.jobs[i].work).value in t.requests)
    && (forall i :: 0 <= i < |t.jobs| && t.jobs[i].receipt && RequestOf(t.jobs[i].work).Some?
          ==> Stopped(t, RequestOf(t.jobs[i].work).value))
  }

  // ----- Steps that queue nothing -----

  /** Only the states of jobs that have not published changed, and none was published. */
  predicate Moved(jobs: seq<Job>, after: seq<Job>) {
    && |after| == |jobs|
    && forall i :: 0 <= i < |jobs| ==>
         && after[i].work == jobs[i].work
         && (jobs[i].state.Published? || after[i].state.Published? ==> after[i].state == jobs[i].state)
  }

  lemma MovedKeepsJobs(jobs: seq<Job>, after: seq<Job>)
    requires JobsOk(jobs) && Moved(jobs, after)
    ensures JobsOk(after)
  {
    hide Rank, Successor;
    forall i: nat | i < |after| ensures Justified(after, i) && HandedOn(after, i) && Sound(after[i]) {
      assert Justified(jobs, i) && HandedOn(jobs, i);
      if !IsRoot(jobs[i].work) {
        var j: nat :| j < i && HandsOnTo(jobs, j, jobs[i].work);
        assert HandsOnTo(after, j, after[i].work);
      }
      if HasHandedOn(jobs, i) {
        var k: nat :| i < k < |jobs| && HandsOnTo(jobs, i, jobs[k].work);
        assert HandsOnTo(after, i, after[k].work);
      }
    }
  }

  lemma MovedKeepsPointers(t: Tables, after: seq<Job>)
    requires Moved(t.jobs, after)
    requires forall request :: request in t.requests ==> PointsAtNewest(t, request)
    ensures forall request :: request in t.requests ==> PointsAtNewest(t.(jobs := after), request)
  {
    hide Successor;
  }

  /** A stopped chain stays stopped while its jobs only move. */
  predicate NoRestart(jobs: seq<Job>, after: seq<Job>) {
    |after| == |jobs|
    && forall i :: 0 <= i < |jobs| && (jobs[i].cancelRequested || jobs[i].state.Cancelled? || jobs[i].state.Failed? || jobs[i].state.Published?)
         ==> after[i].cancelRequested || after[i].state.Cancelled? || after[i].state.Failed? || after[i].state.Published?
  }

  predicate QueuesNothing(e: Event) {
    e.Claim? || e.Return? || e.Fail? || e.Cancel?
  }

  lemma CancelMoves(t: Tables, job: nat)
    requires job < |t.jobs|
    ensures var n := CancelOwned(t, job); n.requests == t.requests && Moved(t.jobs, n.jobs) && NoRestart(t.jobs, n.jobs)
    ensures var n := CancelOwned(t, job);
            forall i :: 0 <= i < |t.jobs| && n.jobs[i].receipt ==> t.jobs[i].receipt || i == job
  {
  }

  lemma QuietMoves(t: Tables, e: Event)
    requires QueuesNothing(e)
    ensures var n := Next(t, e); n.requests == t.requests && Moved(t.jobs, n.jobs) && NoRestart(t.jobs, n.jobs)
    ensures var n := Next(t, e);
            forall i :: 0 <= i < |t.jobs| && n.jobs[i].receipt ==> t.jobs[i].receipt || (e.Cancel? && i == e.job)
  {
    hide CancelOwned;
    if e.Cancel? && e.job < |t.jobs| { CancelMoves(t, e.job); }
  }

  /** Cancelling any job of a chain stops the whole chain, also when it has long been handed on. */
  lemma CancelReachesTheChain(t: Tables, job: nat)
    requires Inv(t) && job < |t.jobs| && RequestOf(t.jobs[job].work).Some?
    ensures Stopped(CancelOwned(t, job), RequestOf(t.jobs[job].work).value)
  {
    hide JobsOk;
    var request := RequestOf(t.jobs[job].work).value;
    assert PointsAtNewest(t, request);
    if t.jobs[job].receipt { assert Stopped(t, request); }
  }

  lemma QuietKeepsInv(t: Tables, e: Event)
    requires Inv(t) && QueuesNothing(e)
    ensures Inv(Next(t, e))
  {
    hide JobsOk, PointsAtNewest, CancelOwned;
    var n := Next(t, e);
    QuietMoves(t, e);
    MovedKeepsJobs(t.jobs, n.jobs);
    MovedKeepsPointers(t, n.jobs);
    assert n == t.(jobs := n.jobs);
    forall i | 0 <= i < |n.jobs| && n.jobs[i].receipt && RequestOf(n.jobs[i].work).Some?
      ensures Stopped(n, RequestOf(n.jobs[i].work).value)
    {
      if t.jobs[i].receipt {
        assert Stopped(t, RequestOf(t.jobs[i].work).value);
      } else {
        CancelReachesTheChain(t, e.job);
      }
    }
  }

  // ----- Steps that queue a job -----

  lemma RootKeepsJobs(jobs: seq<Job>, work: Work)
    requires JobsOk(jobs) && IsRoot(work) && Holder(jobs, KeyOf(work)).None?
    requires forall i :: 0 <= i < |jobs| ==> RequestOf(work).None? || RequestOf(jobs[i].work) != RequestOf(work)
    ensures JobsOk(jobs + [Job(work, Queued, false, 0, false)])
  {
    hide Successor, Rank, Holder;
    var after := jobs + [Job(work, Queued, false, 0, false)];
    forall i: nat | i < |after| ensures Justified(after, i) && HandedOn(after, i) && Sound(after[i]) {
      if i < |jobs| { StaysJustified(jobs, after, i); }
    }
  }

  /** Appending keeps what is known of an older job. */
  lemma StaysJustified(jobs: seq<Job>, after: seq<Job>, i: nat)
    requires i < |jobs| && jobs <= after && Justified(jobs, i) && HandedOn(jobs, i)
    ensures Justified(after, i) && HandedOn(after, i)
  {
    hide Successor;
    if !IsRoot(jobs[i].work) {
      var j: nat :| j < i && HandsOnTo(jobs, j, jobs[i].work);
      assert HandsOnTo(after, j, after[i].work);
    }
    if HasHandedOn(jobs, i) {
      var k: nat :| i < k < |jobs| && HandsOnTo(jobs, i, jobs[k].work);
      assert HandsOnTo(after, i, after[k].work);
    }
  }

  /** A successor belongs to the same request and ranks lower. */
  lemma SuccessorDescends(job: nat, work: Work, result: StageResult)
    requires CanReturn(work, result) && Successor(job, work, result).Some?
    requires work.Reanalysis? ==> work.poll <= MAX_EXPANSION_POLLS
    ensures var next := Successor(job, work, result).value;
            && RequestOf(next) == RequestOf(work) && Rank(next) < Rank(work) && !(next.Reanalysis? && next.poll == 0)
            && (next.Reanalysis? ==> next.poll <= MAX_EXPANSION_POLLS)
            && (next.Assessment? ==> next.retrieval == job) && (next.Retrieval? ==> work.Reanalysis?)
  {
  }

  lemma KeysRank(a: Work, b: Work)
    requires KeyOf(a) == KeyOf(b)
    ensures Rank(a) == Rank(b) && (a.Assessment? || RequestOf(a) == RequestOf(b))
  {
  }

  /** A stage key allows one successor: when a job publishes, nobody holds its successor's key yet. */
  lemma SuccessorIsNew(t: Tables, job: nat, result: StageResult)
    requires Inv(t) && job < |t.jobs| && t.jobs[job].state.Leased? && CanReturn(t.jobs[job].work, result)
    requires Successor(job, t.jobs[job].work, result).Some?
    ensures forall k :: 0 <= k < |t.jobs| ==> KeyOf(t.jobs[k].work) != KeyOf(Successor(job, t.jobs[job].work, result).value)
  {
    var work := t.jobs[job].work;
    var next := Successor(job, work, result).value;
    assert Sound(t.jobs[job]);
    SuccessorDescends(job, work, result);
    hide Successor, CanReturn;
    forall k: nat | k < |t.jobs| ensures KeyOf(t.jobs[k].work) != KeyOf(next) {
      if KeyOf(t.jobs[k].work) == KeyOf(next) {
        KeysRank(next, t.jobs[k].work);
        if next.Assessment? {
          AssessmentNeedsPublished(t.jobs, k);
        } else {
          SameRequestRanksHigher(t, job, k);
        }
        assert false;
      }
    }
  }

  lemma AssessmentNeedsPublished(jobs: seq<Job>, k: nat)
    requires JobsOk(jobs) && k < |jobs| && jobs[k].work.Assessment?
    ensures jobs[k].work.retrieval < |jobs| && jobs[jobs[k].work.retrieval].state.Published?
  {
    hide KeysUnique, RanksDescend, HandedOn, CanReturn;
    assert Justified(jobs, k);
    var j: nat :| j < k && HandsOnTo(jobs, j, jobs[k].work);
  }

  lemma SameRequestRanksHigher(t: Tables, job: nat, k: nat)
    requires Inv(t) && job < |t.jobs| && !t.jobs[job].state.Published? && k < |t.jobs|
    requires RequestOf(t.jobs[job].work).Some? && RequestOf(t.jobs[k].work) == RequestOf(t.jobs[job].work)
    ensures Rank(t.jobs[k].work) >= Rank(t.jobs[job].work)
  {
    hide Justified, HandedOn;
    assert PointsAtNewest(t, RequestOf(t.jobs[job].work).value);
  }

  /** Publishing one job, and perhaps queueing its successor, changes nothing about the others. */
  lemma OthersKept(jobs: seq<Job>, after: seq<Job>, job: nat, i: nat)
    requires job < |jobs| && i < |jobs| <= |after| && !jobs[job].state.Published?
    requires forall k :: 0 <= k < |jobs| && k != job ==> after[k] == jobs[k]
    requires after[job].work == jobs[job].work
    requires Justified(jobs, i) && HandedOn(jobs, i)
    ensures Justified(after, i) && (i != job ==> HandedOn(after, i))
  {
    hide Successor;
    if !IsRoot(jobs[i].work) {
      var j: nat :| j < i && HandsOnTo(jobs, j, jobs[i].work);
      assert HandsOnTo(after, j, after[i].work);
    }
    if i != job && HasHandedOn(jobs, i) {
      var k: nat :| i < k < |jobs| && HandsOnTo(jobs, i, jobs[k].work);
      assert HandsOnTo(after, i, after[k].work);
    }
  }

  lemma PublishedAreJustified(jobs: seq<Job>, after: seq<Job>, job: nat, next: Work)
    requires AllJustified(jobs) && job < |jobs| && !jobs[job].state.Published? && |after| == |jobs| + 1
    requires forall k :: 0 <= k < |jobs| && k != job ==> after[k] == jobs[k]
    requires after[job].work == jobs[job].work && Sound(after[job]) && HandsOnTo(after, job, next)
    requires after[|jobs|] == Job(next, Queued, false, 0, false) && Sound(after[|jobs|])
    ensures AllJustified(after)
  {
    hide Successor, CanReturn, Rank, KeyOf, RequestOf;
    assert HandsOnTo(after, job, after[|jobs|].work);
    forall i: nat | i < |after| ensures Justified(after, i) && HandedOn(after, i) && Sound(after[i]) {
      if i < |jobs| {
        OthersKept(jobs, after, job, i);
        assert Sound(jobs[i]);
      }
    }
  }

  lemma AppendRanks(jobs: seq<Job>, after: seq<Job>)
    requires KeysUnique(jobs) && RanksDescend(jobs) && |after| == |jobs| + 1
    requires forall i :: 0 <= i < |jobs| ==> after[i].work == jobs[i].work && KeyOf(jobs[i].work) != KeyOf(after[|jobs|].work)
    requires forall i :: 0 <= i < |jobs| && RequestOf(after[|jobs|].work).Some? && RequestOf(jobs[i].work) == RequestOf(after[|jobs|].work)
               ==> Rank(jobs[i].work) > Rank(after[|jobs|].work)
    ensures KeysUnique(after) && RanksDescend(after)
  {
    hide KeyOf, RequestOf, Rank;
  }

  lemma PublishKeepsJobs(t: Tables, job: nat, result: StageResult, next: Work)
    requires Inv(t) && job < |t.jobs| && t.jobs[job].state.Leased? && CanReturn(t.jobs[job].work, result)
    requires Successor(job, t.jobs[job].work, result) == Some(next)
    ensures JobsOk(t.jobs[job := t.jobs[job].(state := StageState(result))] + [Job(next, Queued, false, 0, false)])
  {
    hide KeysUnique, RanksDescend, Rank, KeyOf, RequestOf, Justified, HandedOn, PointsAtNewest, Stopped;
    var jobs := t.jobs;
    var after := jobs[job := jobs[job].(state := StageState(result))] + [Job(next, Queued, false, 0, false)];
    assert Sound(jobs[job]);
    SuccessorDescends(job, jobs[job].work, result);
    SuccessorIsNew(t, job, result);
    PublishedAreJustified(jobs, after, job, next);
    forall i: nat | i < |jobs| && RequestOf(next).Some? && RequestOf(jobs[i].work) == RequestOf(next)
      ensures Rank(jobs[i].work) > Rank(next)
    {
      SameRequestRanksHigher(t, job, i);
    }
    AppendRanks(jobs, after);
  }

  lemma LastIsJustified(jobs: seq<Job>, after: seq<Job>, job: nat)
    requires AllJustified(jobs) && job < |jobs| == |after| && !jobs[job].state.Published?
    requires forall k :: 0 <= k < |jobs| && k != job ==> after[k] == jobs[k]
    requires after[job].work == jobs[job].work && Sound(after[job]) && !HasHandedOn(after, job)
    ensures AllJustified(after)
  {
    hide Successor, CanReturn, Rank, KeyOf, RequestOf;
    forall i: nat | i < |after| ensures Justified(after, i) && HandedOn(after, i) && Sound(after[i]) {
      OthersKept(jobs, after, job, i);
      assert Sound(jobs[i]);
    }
  }

  lemma SameWorkSameRanks(jobs: seq<Job>, after: seq<Job>)
    requires KeysUnique(jobs) && RanksDescend(jobs) && |after| == |jobs|
    requires forall i :: 0 <= i < |jobs| ==> after[i].work == jobs[i].work
    ensures KeysUnique(after) && RanksDescend(after)
  {
    hide KeyOf, RequestOf, Rank;
  }

  lemma LastKeepsJobs(t: Tables, job: nat, result: StageResult)
    requires JobsOk(t.jobs) && job < |t.jobs| && t.jobs[job].state.Leased? && CanReturn(t.jobs[job].work, result)
    requires Successor(job, t.jobs[job].work, result).None?
    ensures JobsOk(t.jobs[job := t.jobs[job].(state := StageState(result))])
  {
    hide KeysUnique, RanksDescend, Justified, HandedOn, Successor, CanReturn;
    var jobs := t.jobs;
    var after := jobs[job := jobs[job].(state := StageState(result))];
    assert Sound(jobs[job]);
    LastIsJustified(jobs, after, job);
    SameWorkSameRanks(jobs, after);
  }

  lemma AskKeepsInv(t: Tables, request: nat, reason: Reason, baseVersion: nat, claims: seq<string>)
    requires Inv(t)
    ensures Inv(Next(t, Ask(request, reason, baseVersion, claims)))
  {
    hide JobsOk, Stopped;
    var work := Reanalysis(request, reason, baseVersion, claims, 0);
    var n := Next(t, Ask(request, reason, baseVersion, claims));
    if request !in t.requests {
      assert forall i :: 0 <= i < |t.jobs| ==> RequestOf(t.jobs[i].work) != Some(request);
      assert Holder(t.jobs, KeyOf(work)).None?;
      RootKeepsJobs(t.jobs, work);
      AppendKeepsRest(t, n);
    }
  }

  /** Queueing a job leaves the pointers of other requests, and what is stopped, as they were. */
  lemma AppendKeepsRest(t: Tables, n: Tables)
    requires Inv(t) && |n.jobs| == |t.jobs| + 1 && !n.jobs[|t.jobs|].receipt
    requires forall i :: 0 <= i < |t.jobs| ==> n.jobs[i] == t.jobs[i]
    requires forall r :: r in t.requests ==> r in n.requests
    requires forall r :: r in n.requests && n.requests[r] != |t.jobs| ==> r in t.requests && t.requests[r] == n.requests[r]
    requires forall r :: r in n.requests && n.requests[r] == |t.jobs| ==> r !in t.requests && PointsAtNewest(n, r)
    requires RequestOf(n.jobs[|t.jobs|].work).Some? ==>
               RequestOf(n.jobs[|t.jobs|].work).value in n.requests && n.requests[RequestOf(n.jobs[|t.jobs|].work).value] == |t.jobs|
    ensures forall r :: r in n.requests ==> PointsAtNewest(n, r)
    ensures forall i :: 0 <= i < |n.jobs| && RequestOf(n.jobs[i].work).Some? ==> RequestOf(n.jobs[i].work).value in n.requests
    ensures forall i :: 0 <= i < |n.jobs| && n.jobs[i].receipt && RequestOf(n.jobs[i].work).Some?
              ==> Stopped(n, RequestOf(n.jobs[i].work).value)
  {
    hide JobsOk, Successor;
  }

  lemma QueueRetrievalKeepsInv(t: Tables, baseVersion: nat, scope: Option<seq<string>>, deeper: bool)
    requires Inv(t)
    ensures Inv(Next(t, QueueRetrieval(baseVersion, scope, deeper)))
  {
    hide JobsOk, Stopped;
    var work := Retrieval(Payload(baseVersion, scope, deeper, None));
    var n := Next(t, QueueRetrieval(baseVersion, scope, deeper));
    if Holder(t.jobs, KeyOf(work)).None? {
      RootKeepsJobs(t.jobs, work);
      assert forall request :: request in t.requests ==> PointsAtNewest(t, request) && t.requests[request] < |t.jobs|;
      AppendKeepsRest(t, n);
    }
  }

  lemma SoundAt(jobs: seq<Job>, job: nat)
    requires JobsOk(jobs) && job < |jobs|
    ensures Sound(jobs[job])
  {
  }

  lemma PublishedPointers(t: Tables, n: Tables, job: nat, result: StageResult)
    requires Inv(t) && job < |t.jobs| && Fenced(t, job, t.jobs[job].token) && CanReturn(t.jobs[job].work, result)
    requires n == PublishStage(t, job, t.jobs[job].token, result)
    ensures forall r :: r in n.requests ==> PointsAtNewest(n, r)
    ensures forall i :: 0 <= i < |n.jobs| && RequestOf(n.jobs[i].work).Some? ==> RequestOf(n.jobs[i].work).value in n.requests
    ensures forall i :: 0 <= i < |n.jobs| && n.jobs[i].receipt && RequestOf(n.jobs[i].work).Some?
              ==> Stopped(n, RequestOf(n.jobs[i].work).value)
  {
    hide JobsOk, KeyOf;
    var work := t.jobs[job].work;
    var marked := t.jobs[job := t.jobs[job].(state := StageState(result))];
    var request := RequestOf(work);
    if request.Some? { assert PointsAtNewest(t, request.value); }
    match Successor(job, work, result) {
      case None => LastPointers(t, n, job, result);
      case Some(next) =>
        SuccessorIsNew(t, job, result);
        SoundAt(t.jobs, job);
        SuccessorDescends(job, work, result);
        assert Holder(marked, KeyOf(next)).None?;
        NextPointers(t, n, job, result, next);
    }
  }

  lemma LastPointers(t: Tables, n: Tables, job: nat, result: StageResult)
    requires Inv(t) && job < |t.jobs| && t.jobs[job].state.Leased? && !t.jobs[job].cancelRequested
    requires Successor(job, t.jobs[job].work, result).None?
    requires n == t.(jobs := t.jobs[job := t.jobs[job].(state := StageState(result))])
    ensures forall r :: r in n.requests ==> PointsAtNewest(n, r)
    ensures forall i :: 0 <= i < |n.jobs| && RequestOf(n.jobs[i].work).Some? ==> RequestOf(n.jobs[i].work).value in n.requests
    ensures forall i :: 0 <= i < |n.jobs| && n.jobs[i].receipt && RequestOf(n.jobs[i].work).Some?
              ==> Stopped(n, RequestOf(n.jobs[i].work).value)
  {
    hide JobsOk, Successor, RequestOf;
    forall r | r in n.requests ensures PointsAtNewest(n, r) { assert PointsAtNewest(t, r); }
    forall i | 0 <= i < |n.jobs| && n.jobs[i].receipt && RequestOf(n.jobs[i].work).Some?
      ensures Stopped(n, RequestOf(n.jobs[i].work).value)
    {
      assert Stopped(t, RequestOf(t.jobs[i].work).value);
    }
  }

  lemma NextPointsAt(t: Tables, n: Tables, job: nat, result: StageResult, next: Work, r: nat)
    requires Inv(t) && job < |t.jobs| && t.jobs[job].state.Leased?
    requires Successor(job, t.jobs[job].work, result) == Some(next) && RequestOf(next) == RequestOf(t.jobs[job].work)
    requires n.jobs == t.jobs[job := t.jobs[job].(state := StageState(result))] + [Job(next, Queued, false, 0, false)]
    requires var request := RequestOf(next);
             n.requests == if request.Some? then t.requests[request.value := |t.jobs|] else t.requests
    requires r in n.requests
    ensures PointsAtNewest(n, r)
  {
    hide JobsOk, Successor, RequestOf, Stopped;
    if RequestOf(next) == Some(r) {
      assert PointsAtNewest(t, r);
    } else {
      assert PointsAtNewest(t, r);
    }
  }

  lemma NextPointers(t: Tables, n: Tables, job: nat, result: StageResult, next: Work)
    requires Inv(t) && job < |t.jobs| && t.jobs[job].state.Leased? && !t.jobs[job].cancelRequested
    requires Successor(job, t.jobs[job].work, result) == Some(next) && RequestOf(next) == RequestOf(t.jobs[job].work)
    requires n.jobs == t.jobs[job := t.jobs[job].(state := StageState(result))] + [Job(next, Queued, false, 0, false)]
    requires var request := RequestOf(next);
             n.requests == if request.Some? then t.requests[request.value := |t.jobs|] else t.requests
    ensures forall r :: r in n.requests ==> PointsAtNewest(n, r)
    ensures forall i :: 0 <= i < |n.jobs| && RequestOf(n.jobs[i].work).Some? ==> RequestOf(n.jobs[i].work).value in n.requests
    ensures forall i :: 0 <= i < |n.jobs| && n.jobs[i].receipt && RequestOf(n.jobs[i].work).Some?
              ==> Stopped(n, RequestOf(n.jobs[i].work).value)
  {
    hide JobsOk, Successor, RequestOf;
    forall r | r in n.requests ensures PointsAtNewest(n, r) { NextPointsAt(t, n, job, result, next, r); }
    hide HasHandedOn;
    forall i | 0 <= i < |n.jobs| && n.jobs[i].receipt && RequestOf(n.jobs[i].work).Some?
      ensures Stopped(n, RequestOf(n.jobs[i].work).value)
    {
      var r := RequestOf(n.jobs[i].work).value;
      assert Stopped(t, r) && PointsAtNewest(t, r);
    }
  }

  lemma PublishKeepsInv(t: Tables, job: nat, token: nat, result: StageResult)
    requires Inv(t)
    ensures Inv(Next(t, Publish(job, token, result)))
  {
    hide JobsOk, PointsAtNewest, Stopped, KeyOf, CanReturn, RequestOf;
    if Fenced(t, job, token) && CanReturn(t.jobs[job].work, result) {
      var n := PublishStage(t, job, token, result);
      PublishedPointers(t, n, job, result);
      var work := t.jobs[job].work;
      match Successor(job, work, result) {
        case None => LastKeepsJobs(t, job, result);
        case Some(next) =>
          SuccessorIsNew(t, job, result);
          PublishKeepsJobs(t, job, result, next);
      }
    }
  }

  lemma StepKeepsInv(t: Tables, e: Event)
    requires Inv(t)
    ensures Inv(Next(t, e))
  {
    hide Inv, Next;
    match e
    case Ask(request, reason, baseVersion, claims) => AskKeepsInv(t, request, reason, baseVersion, claims);
    case QueueRetrieval(baseVersion, scope, deeper) => QueueRetrievalKeepsInv(t, baseVersion, scope, deeper);
    case Publish(job, token, result) => PublishKeepsInv(t, job, token, result);
    case _ => QuietKeepsInv(t, e);
  }

  /** Whatever is claimed, lost, failed, cancelled and published, in any order: a job exists only because
      an earlier one published a result that called for it, every such call has its job, stage keys are
      never shared, and a request points at the newest job of its chain. */
  lemma {:induction false} RunKeepsInv(t: Tables, events: seq<Event>)
    requires Inv(t)
    ensures Inv(Run(t, events))
    decreases |events|
  {
    hide Inv, Next;
    if events != [] {
      StepKeepsInv(t, events[0]);
      RunKeepsInv(Next(t, events[0]), events[1..]);
    }
  }

  // ----- Cancellation -----

  lemma StoppedStays(t: Tables, e: Event, request: nat)
    requires Inv(t) && Stopped(t, request)
    ensures var n := Next(t, e);
            Stopped(n, request) && n.requests[request] == t.requests[request]
  {
    hide JobsOk, Rank, KeyOf, CancelOwned;
    assert PointsAtNewest(t, request);
    match e
    case Ask(_, _, _, _) =>
    case QueueRetrieval(_, _, _) =>
    case Publish(job, token, result) =>
      if job < |t.jobs| && CanReturn(t.jobs[job].work, result) && Fenced(t, job, token) {
        SoundAt(t.jobs, job);
        if Successor(job, t.jobs[job].work, result).Some? { SuccessorDescends(job, t.jobs[job].work, result); }
      }
    case _ => QuietMoves(t, e);
  }

  lemma {:induction false} StoppedRun(t: Tables, events: seq<Event>, request: nat)
    requires Inv(t) && Stopped(t, request)
    ensures var n := Run(t, events);
            Inv(n) && Stopped(n, request) && request in n.requests && n.requests[request] == t.requests[request]
    decreases |events|
  {
    hide Inv, Next;
    if events != [] {
      StoppedStays(t, events[0], request);
      StepKeepsInv(t, events[0]);
      StoppedRun(Next(t, events[0]), events[1..], request);
    }
  }

  /** Once any job of a chain was cancelled, nothing is added to the chain, whatever happens next. */
  lemma CancelledForGood(t: Tables, job: nat, events: seq<Event>)
    requires Inv(t) && job < |t.jobs| && RequestOf(t.jobs[job].work).Some?
    ensures var n := Run(Next(t, Cancel(job)), events);
            forall i :: 0 <= i < |n.jobs| && RequestOf(n.jobs[i].work) == RequestOf(t.jobs[job].work) ==> i < |t.jobs|
  {
    hide JobsOk, CancelOwned, Successor, Run, PointsAtNewest, RequestOf, Stopped;
    var request := RequestOf(t.jobs[job].work).value;
    var stopped := CancelOwned(t, job);
    CancelKeepsPointers(t, job);
    CancelReachesTheChain(t, job);
    StepKeepsInv(t, Cancel(job));
    assert PointsAtNewest(t, request);
    StoppedRun(stopped, events, request);
    assert PointsAtNewest(Run(stopped, events), request);
    NothingPast(t, Run(stopped, events), request);
  }

  lemma CancelKeepsPointers(t: Tables, job: nat)
    requires job < |t.jobs|
    ensures Next(t, Cancel(job)) == CancelOwned(t, job) && CancelOwned(t, job).requests == t.requests
  {
    hide RequestCancel;
  }

  lemma NothingPast(t: Tables, n: Tables, request: nat)
    requires request in t.requests && request in n.requests && n.requests[request] == t.requests[request]
    requires PointsAtNewest(t, request) && PointsAtNewest(n, request)
    ensures forall i :: 0 <= i < |n.jobs| && RequestOf(n.jobs[i].work) == Some(request) ==> i < |t.jobs|
  {
  }

  // ----- Termination -----

  ghost function JobsFor(jobs: seq<Job>, request: nat): set<nat> {
    set i: nat | i < |jobs| && RequestOf(jobs[i].work) == Some(request)
  }

  /** Distinct ranks between zero and a bound leave room for that many jobs. */
  lemma {:induction false} FewRanks(jobs: seq<Job>, chosen: set<nat>, bound: nat)
    requires forall i :: i in chosen ==> i < |jobs| && 0 <= Rank(jobs[i].work) < bound
    requires forall i, j :: i in chosen && j in chosen && i != j ==> Rank(jobs[i].work) != Rank(jobs[j].work)
    ensures |chosen| <= bound
    decreases bound
  {
    hide Rank;
    if i :| i in chosen && Rank(jobs[i].work) == bound - 1 {
      FewRanks(jobs, chosen - {i}, bound - 1);
      assert |chosen| == |chosen - {i}| + 1;
    } else if bound > 0 {
      FewRanks(jobs, chosen, bound - 1);
    } else {
      assert chosen == {};
    }
  }

  /** No chain is longer than thirteen checks, a retrieval and an assessment. */
  lemma ChainsAreShort(t: Tables, request: nat)
    requires Inv(t)
    ensures |JobsFor(t.jobs, request)| <= MAX_EXPANSION_POLLS + 3
  {
    var chosen := JobsFor(t.jobs, request);
    forall i | i in chosen ensures 0 <= Rank(t.jobs[i].work) < MAX_EXPANSION_POLLS + 3 {
      assert Sound(t.jobs[i]);
    }
    hide Rank, Justified, HandedOn, PointsAtNewest, Stopped, Sound, KeyOf;
    FewRanks(t.jobs, chosen, MAX_EXPANSION_POLLS + 3);
  }

  function Power(n: nat): (r: nat)
    ensures r >= 1
  {
    if n == 0 then 1 else 2 * Power(n - 1)
  }

  /** Seconds before the check that follows this one. */
  function ExpansionDelay(poll: nat): nat {
    if 30 * Power(poll) <= 600 then 30 * Power(poll) else 600
  }

  function TotalDelay(polls: nat): nat {
    if polls == 0 then 0 else TotalDelay(polls - 1) + ExpansionDelay(polls - 1)
  }

  lemma {:induction false} PowerGrows(n: nat)
    ensures n >= 5 ==> Power(n) >= 32
  {
    if n > 5 { PowerGrows(n - 1); }
    if n == 5 { assert Power(5) == 2 * Power(4) == 4 * Power(3) == 8 * Power(2) == 16 * Power(1); }
  }

  /** How long the first checks of an expansion wait in all; the twelve that are allowed wait 5130 seconds. */
  lemma {:induction false} TotalDelayIs(polls: nat)
    requires 5 <= polls
    ensures TotalDelay(polls) == 930 + 600 * (polls - 5)
  {
    if polls == 5 {
      assert Power(1) == 2 && Power(2) == 4 && Power(3) == 8 && Power(4) == 16;
      assert TotalDelay(1) == 30 && TotalDelay(2) == 90 && TotalDelay(3) == 210 && TotalDelay(4) == 450;
    } else {
      TotalDelayIs(polls - 1);
      PowerGrows(polls - 1);
    }
  }

  // ----- Leases -----

  /** This worker holds the job under an older lease than the last one, or lost the last one. */
  predicate LeaseLost(t: Tables, job: nat, token: nat) {
    job < |t.jobs| && (token < t.jobs[job].token || (token == t.jobs[job].token && !t.jobs[job].state.Leased?))
  }

  /** Tokens never go back, and a job is leased again only under a new one. */
  lemma LeaseStaysLost(t: Tables, e: Event, job: nat, token: nat)
    requires LeaseLost(t, job, token)
    ensures LeaseLost(Next(t, e), job, token)
  {
    hide Successor, CanReturn, KeyOf, RequestOf, Holder;
  }

  /** A lease that was lost can publish nothing any more, whatever happens to the job afterwards: a
      publication under it changes nothing. */
  lemma {:induction false} LostLeaseNeverPublishes(t: Tables, job: nat, token: nat, events: seq<Event>, result: StageResult)
    requires LeaseLost(t, job, token)
    ensures var n := Run(t, events); LeaseLost(n, job, token) && Next(n, Publish(job, token, result)) == n
    decreases |events|
  {
    if events != [] {
      hide Next, LeaseLost;
      LeaseStaysLost(t, events[0], job, token);
      LostLeaseNeverPublishes(Next(t, events[0]), job, token, events[1..], result);
    }
  }

  predicate Withdrawn(t: Tables, job: nat) {
    job < |t.jobs| && t.jobs[job].cancelRequested && !t.jobs[job].state.Queued?
  }

  lemma StaysWithdrawn(t: Tables, e: Event, job: nat)
    requires Withdrawn(t, job)
    ensures Withdrawn(Next(t, e), job) && Next(t, e).jobs[job].token == t.jobs[job].token
  {
    hide Successor, CanReturn, KeyOf, RequestOf, Holder;
  }

  /** A job whose cancellation was requested is never leased again: when its worker returns it, it is
      cancelled and not queued. */
  lemma {:induction false} CancelledIsNeverClaimed(t: Tables, job: nat, events: seq<Event>)
    requires Withdrawn(t, job)
    ensures Withdrawn(Run(t, events), job) && Run(t, events).jobs[job].token == t.jobs[job].token
    decreases |events|
  {
    if events != [] {
      hide Next, Withdrawn;
      StaysWithdrawn(t, events[0], job);
      CancelledIsNeverClaimed(Next(t, events[0]), job, events[1..]);
    }
  }

  // ----- What a publication adds -----

  /** The result is recorded and nothing else changes. */
  ghost predicate AddsNothing(t: Tables, n: Tables, job: nat, result: StageResult)
    requires job < |t.jobs|
  {
    n.requests == t.requests && n.jobs == t.jobs[job := t.jobs[job].(state := JobState.Published(result))]
  }

  /** The result is recorded, exactly this job is queued behind the others, and the request of the
      published job, if it works for one, points at it. */
  ghost predicate AddsJob(t: Tables, n: Tables, job: nat, result: StageResult, work: Work)
    requires job < |t.jobs|
  {
    && n.jobs == t.jobs[job := t.jobs[job].(state := JobState.Published(result))] + [Job(work, Queued, false, 0, false)]
    && (forall r :: r in n.requests <==> r in t.requests || Serves(t.jobs[job].work, r))
    && (forall r :: r in n.requests ==> n.requests[r] == if Serves(t.jobs[job].work, r) then |t.jobs| else t.requests[r])
  }

  /** The job works for this reanalysis request. */
  predicate Serves(work: Work, r: nat) {
    match work
    case Reanalysis(request, _, _, _, _) => r == request
    case Retrieval(plan) => plan.request == Some(r)
    case Assessment(plan, _) => plan.request == Some(r)
  }

  /** What each result calls for: a retrieval with claims that is not superseded its assessment, a plan
      its retrieval, a check that still waits the next check of the same request, and nothing else. */
  ghost predicate PublicationAdds(t: Tables, n: Tables, job: nat, result: StageResult)
    requires job < |t.jobs|
  {
    var work := t.jobs[job].work;
    && (work.Retrieval? && result.Found? && result.claims > 0 && !result.superseded ==>
          AddsJob(t, n, job, result, Assessment(work.plan, job)))
    && (work.Retrieval? && result.Found? && (result.claims == 0 || result.superseded) ==> AddsNothing(t, n, job, result))
    && (work.Reanalysis? && result.Planned? ==> AddsJob(t, n, job, result, Retrieval(result.plan)))
    && (work.Reanalysis? && result.Waiting? ==> AddsJob(t, n, job, result, work.(poll := result.poll + 1)))
    && (result.Ended? ==> AddsNothing(t, n, job, result))
  }

  lemma PublishingAdds(t: Tables, job: nat, token: nat, result: StageResult)
    requires Inv(t) && Fenced(t, job, token) && CanReturn(t.jobs[job].work, result)
    ensures PublicationAdds(t, Next(t, Publish(job, token, result)), job, result)
  {
    hide Inv, KeyOf, CanReturn;
    var work := t.jobs[job].work;
    if Successor(job, work, result).Some? {
      SuccessorIsNew(t, job, result);
      var marked := t.jobs[job := t.jobs[job].(state := StageState(result))];
      assert Holder(marked, KeyOf(Successor(job, work, result).value)).None?;
    }
  }

  /** Two jobs do the same: one check of one request, a retrieval of the same version, claims, depth and
      request, or the assessment of one retrieval. */
  ghost predicate SameTask(a: Work, b: Work) {
    match (a, b)
    case (Reanalysis(r, _, _, _, p), Reanalysis(r', _, _, _, p')) => r == r' && p == p'
    case (Retrieval(p), Retrieval(p')) =>
      && p.baseVersion == p'.baseVersion && p.deeper == p'.deeper && p.request == p'.request
      && (p.scope.None? <==> p'.scope.None?) && (p.scope.Some? ==> multiset(p.scope.value) == multiset(p'.scope.value))
    case (Assessment(_, r), Assessment(_, r')) => r == r'
    case _ => false
  }

  // ----- The tables themselves -----

  lemma {:induction false} SameHolder(jobs: seq<Job>, after: seq<Job>, key: Key)
    requires |jobs| == |after| && forall i :: 0 <= i < |jobs| ==> jobs[i].work == after[i].work
    ensures Holder(jobs, key) == Holder(after, key)
  {
    if jobs != [] {
      SameHolder(jobs[..|jobs| - 1], after[..|jobs| - 1], key);
    }
  }

  class JobTables {
    var jobs: seq<Job>
    var requests: map<nat, nat>

    function Current(): Tables
      reads this
    {
      Tables(jobs, requests)
    }

    constructor ()
      ensures Inv(Current()) && jobs == [] && requests == map[]
    {
      jobs, requests := [], map[];
    }

    /** Queues a job unless its stage key is taken; the job that holds the key, and whether it is new. */
    method Queue(work: Work) returns (job: nat, created: bool)
      modifies this`jobs
      ensures (jobs, job) == Enqueue(old(jobs), work)
      ensures created <==> forall i :: 0 <= i < |old(jobs)| ==> !SameTask(old(jobs)[i].work, work)
      ensures job < |jobs| && SameTask(jobs[job].work, work)
      ensures jobs == if created then old(jobs) + [Job(work, Queued, false, 0, false)] else old(jobs)
    {
      var holder := Holder(jobs, KeyOf(work));
      if holder.Some? {
        return holder.value, false;
      }
      jobs := jobs + [Job(work, Queued, false, 0, false)];
      return |jobs| - 1, true;
    }

    /** Records a result if the lease is still the current one. */
    method RecordResult(job: nat, token: nat, result: StageResult) returns (recorded: bool)
      requires job < |jobs|
      modifies this`jobs
      ensures recorded == old(Fenced(Current(), job, token))
      ensures jobs == if recorded then old(jobs)[job := old(jobs)[job].(state := StageState(result))] else old(jobs)
    {
      var j := jobs[job];
      recorded := j.state.Leased? && j.token == token && !j.cancelRequested;
      if recorded {
        jobs := jobs[job := j.(state := StageState(result))];
      }
    }

    /** Publishes a stage and queues its successor in one transaction: retrieval is queued before the
        result is recorded, assessments and later checks after it, and a lost lease undoes both. */
    method PublishEvidenceStage(job: nat, token: nat, result: StageResult) returns (published: bool)
      requires Inv(Current()) && job < |jobs| && CanReturn(jobs[job].work, result)
      modifies this
      ensures published <==> old(jobs)[job].state.Leased? && old(jobs)[job].token == token && !old(jobs)[job].cancelRequested
      ensures Current() == Next(old(Current()), Publish(job, token, result)) && Inv(Current())
      ensures if published then PublicationAdds(old(Current()), Current(), job, result) else Current() == old(Current())
    {
      hide Inv, CanReturn, KeyOf, PublicationAdds;
      if Fenced(Current(), job, token) { PublishingAdds(Current(), job, token, result); }
      PublishKeepsInv(Current(), job, token, result);
      var before := jobs;
      var work := jobs[job].work;
      var successor := Successor(job, work, result);
      var next: Option<nat> := None;
      var created;
      if result.Planned? && successor.Some? {
        var queued;
        queued, created := Queue(successor.value);
        next := Some(queued);
      }
      published := RecordResult(job, token, result);
      if !published {
        jobs := before;
        return;
      }
      SameHolder(before, before[job := before[job].(state := StageState(result))], if successor.Some? then KeyOf(successor.value) else KeyOf(work));
      if !result.Planned? && successor.Some? {
        var queued;
        queued, created := Queue(successor.value);
        next := Some(queued);
      }
      var request := RequestOf(work);
      if request.Some? && next.Some? {
        requests := requests[request.value := next.value];
      }
    }

    /** Cancels a job of the caller's, or the one its request was handed on to. */
    method CancelOwnedJob(job: nat)
      requires Inv(Current()) && job < |jobs|
      modifies this`jobs
      ensures Current() == Next(old(Current()), Cancel(job)) && Inv(Current())
      ensures RequestOf(old(jobs)[job].work).Some? ==> Stopped(Current(), RequestOf(old(jobs)[job].work).value)
      ensures jobs[job].receipt && |jobs| == |old(jobs)|
      ensures !old(jobs)[job].receipt && old(jobs)[job].state.Queued? ==> jobs[job].state.Cancelled?
      ensures !old(jobs)[job].receipt && old(jobs)[job].state.Leased? ==> jobs[job].state.Leased? && jobs[job].cancelRequested
      ensures forall i :: 0 <= i < |jobs| && jobs[i] != old(jobs)[i] ==>
                i == job || exists r :: Serves(old(jobs)[job].work, r) && r in requests && requests[r] == i
    {
      hide Inv;
      QuietKeepsInv(Current(), Cancel(job));
      if RequestOf(jobs[job].work).Some? { CancelReachesTheChain(Current(), job); }
      if jobs[job].receipt {
        return;
      }
      var request := RequestOf(jobs[job].work);
      var state := jobs[job].state;
      if !state.Cancelled? {
        var handedOn := state.Published? && request.Some? && request.value in requests
                        && requests[request.value] != job && requests[request.value] < |jobs|;
        if !handedOn {
          jobs := RequestCancel(jobs, job);
        } else if !jobs[requests[request.value]].state.Cancelled? {
          jobs := RequestCancel(jobs, requests[request.value]);
        }
      }
      jobs := jobs[job := jobs[job].(receipt := true)];
    }
  }
}
