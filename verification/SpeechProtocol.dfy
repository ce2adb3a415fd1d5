/** One speech job as a state machine over its atomic steps: workers read the ledger, mark a row
    before each request, send, record and may crash or lose their lease anywhere in between. */
module SpeechProtocol {
  import opened Wrappers
  import opened SpeechLedger

  datatype Model = Primary | Fallback

  const ORDER := [Primary, Fallback]

  /** A ledger row of this job. */
  datatype Entry = Entry(model: Model, index: nat, outcome: Outcome)

  /** Where a worker stands. `view` is what it read from the ledger at its start; `row` is the
      ledger row it marked for its next request. */
  datatype Stage =
    | Claimed
    | Deciding(position: nat, view: map<Model, Outcome>)
    | Marked(position: nat, view: map<Model, Outcome>, row: nat)
    | Cleared(position: nat, view: map<Model, Outcome>, row: nat)
    | Waiting(position: nat, view: map<Model, Outcome>, row: nat)
    | Returned
    | Failing(quota: bool)
    | Stopped

  datatype Worker = Worker(index: nat, stage: Stage)

  /** Whether the job may still be worked on: it is open, it failed (for a full quota or not), or it
      was published or cancelled. */
  datatype Phase = Open | GivenUp(quota: bool) | Over

  /** `token` is the fencing token of the newest lease and `active` whether it still holds; a run
      is named by the owner retries and the scheduled retries so far. `sends` lists the rows whose
      request went out and `refused` the runs whose quota was full, both as history only. */
  datatype State = State(
    ledger: seq<Entry>, token: nat, active: bool, phase: Phase, ownerRetries: nat, retries: nat, requestRecorded: bool,
    workers: map<nat, Worker>, sends: seq<nat>, refused: set<(Model, nat)>)

  datatype Step =
    | Expire
    | Claim
    | Requeue
    | OwnerRetry(primaryRoom: bool, fallbackRoom: bool)
    | Read(token: nat)
    | Decide(token: nat, room: bool)
    | Beat(token: nat)
    | Send(token: nat)
    | Answer(token: nat, result: Outcome)
    | Publish(token: nat)
    | Fail(token: nat)
    | Abort(token: nat)
    | Cancel
    | Crash(token: nat)

  /** The retry caps of the four classes add up to at most this many. */
  const MAX_RETRIES := 60

  function RunIndex(ownerRetries: nat, retries: nat): nat {
    ownerRetries * 100 + retries
  }

  /** Owner retries and scheduled retries never share a run index. */
  lemma RunIndexInjective(a: nat, b: nat, c: nat, d: nat)
    requires b <= MAX_RETRIES && d <= MAX_RETRIES && RunIndex(a, b) == RunIndex(c, d)
    ensures a == c && b == d
  {
  }

  function CurrentIndex(s: State): nat {
    RunIndex(s.ownerRetries, s.retries)
  }

  /** The newest row per model of one run. */
  function View(ledger: seq<Entry>, index: nat): map<Model, Outcome> {
    if ledger == [] then map[]
    else
      var last, before := ledger[|ledger| - 1], View(ledger[..|ledger| - 1], index);
      if last.index == index then before[last.model := last.outcome] else before
  }

  /** The ledger holds the current lease of this worker. */
  predicate Fenced(s: State, token: nat) {
    s.active && token == s.token && token in s.workers
  }

  /** The first reserved row of a model in a run, if any. */
  function FindReserved(ledger: seq<Entry>, model: Model, index: nat): (r: Option<nat>)
    ensures r.Some? ==> r.value < |ledger| && ledger[r.value] == Entry(model, index, Reserved)
    ensures r.None? ==> Entry(model, index, Reserved) !in ledger
  {
    if ledger == [] then None
    else
      var before := ledger[..|ledger| - 1];
      assert ledger == before + [ledger[|ledger| - 1]];
      var earlier := FindReserved(before, model, index);
      if earlier.Some? then earlier
      else if ledger[|ledger| - 1] == Entry(model, index, Reserved) then Some(|ledger| - 1)
      else None
  }

  /** No model of the run may have processed the audio. */
  predicate ReplaySafe(ledger: seq<Entry>, index: nat) {
    forall e :: e in ledger && e.index == index ==>
      e.outcome != Reserved && e.outcome != Uncertain && e.outcome != Completed && e.outcome != Failed(UnknownOutcome)
  }

  /** The run ends for want of quota: its last model was refused, or its row says so. */
  predicate EndsForQuota(ledger: seq<Entry>, index: nat) {
    var view := View(ledger, index);
    Fallback in view ==> view[Fallback] == Failed(QuotaExhausted) || view[Fallback] == Failed(RateLimited)
  }

  function Moved(s: State, token: nat, stage: Stage): State
    requires token in s.workers
  {
    s.(workers := s.workers[token := s.workers[token].(stage := stage)])
  }

  /** One iteration of the model loop: pass over the model, or mark a row for it. */
  function DecideStep(s: State, token: nat, room: bool): State
    requires token in s.workers && s.workers[token].stage.Deciding?
  {
    var w := s.workers[token];
    var p, view := w.stage.position, w.stage.view;
    if p >= |ORDER| then Moved(s, token, Failing(EndsForQuota(s.ledger, w.index)))
    else
      var model := ORDER[p];
      if model !in view && exists k :: p < k < |ORDER| && ORDER[k] in view then Moved(s, token, Deciding(p + 1, view))
      else if model in view && view[model] != Reserved then Moved(s, token, Deciding(p + 1, view))
      else if !Fenced(s, token) then Moved(s, token, Stopped)
      else
        match FindReserved(s.ledger, model, w.index)
        case Some(k) =>
          Moved(s, token, Marked(p, view, k)).(ledger := s.ledger[k := Entry(model, w.index, Uncertain)])
        case None =>
          if room then
            Moved(s, token, Marked(p, view, |s.ledger|))
              .(ledger := s.ledger + [Entry(model, w.index, Uncertain)], requestRecorded := true)
          else
            Moved(s, token, Deciding(p + 1, view)).(refused := s.refused + {(model, w.index)})
  }

  /** Recording the answer to a request: a worker that lost its lease writes nothing and stops. */
  function AnswerStep(s: State, token: nat, result: Outcome): State
    requires token in s.workers && s.workers[token].stage.Waiting?
  {
    var g := s.workers[token].stage;
    if !Fenced(s, token) || g.row >= |s.ledger| then Moved(s, token, Stopped)
    else
      Moved(s, token, if result.Completed? then Returned else Deciding(g.position + 1, g.view))
        .(ledger := s.ledger[g.row := s.ledger[g.row].(outcome := result)])
  }

  /** The worker is done, and with its lease so is the job. */
  function EndStep(s: State, token: nat, phase: Phase): State
    requires token in s.workers
  {
    if Fenced(s, token) then Moved(s, token, Stopped).(active := false, phase := phase) else Moved(s, token, Stopped)
  }

  /** The state after a step; a step that is not possible changes nothing. */
  function Next(s: State, step: Step): State {
    match step
    case Expire => s.(active := false)
    case Claim =>
      if s.active || !s.phase.Open? then s
      else s.(token := s.token + 1, active := true,
              workers := s.workers[s.token + 1 := Worker(CurrentIndex(s), Claimed)])
    case Requeue =>
      if s.active && s.retries < MAX_RETRIES then s.(active := false, retries := s.retries + 1) else s
    case OwnerRetry(primaryRoom, fallbackRoom) =>
      if s.phase != GivenUp(true) || !ReplaySafe(s.ledger, CurrentIndex(s)) || (!primaryRoom && !fallbackRoom) then s
      else
        var index := RunIndex(s.ownerRetries + 1, 0);
        s.(ledger := s.ledger + [Entry(if primaryRoom then Primary else Fallback, index, Reserved)],
           phase := Open, ownerRetries := s.ownerRetries + 1, retries := 0, requestRecorded := true,
           refused := if primaryRoom then s.refused else s.refused + {(Primary, index)})
    case Read(token) =>
      if token !in s.workers || !s.workers[token].stage.Claimed? then s
      else if !Fenced(s, token) then Moved(s, token, Stopped)
      else if s.ledger == [] && s.requestRecorded then Moved(s, token, Failing(false))
      else
        var view := View(s.ledger, s.workers[token].index);
        Moved(s, token, if exists m :: m in view && view[m] == Completed then Returned else Deciding(0, view))
    case Decide(token, room) =>
      if token in s.workers && s.workers[token].stage.Deciding? then DecideStep(s, token, room) else s
    case Beat(token) =>
      if token !in s.workers || !s.workers[token].stage.Marked? then s
      else
        var g := s.workers[token].stage;
        Moved(s, token, if Fenced(s, token) then Cleared(g.position, g.view, g.row) else Stopped)
    case Send(token) =>
      if token !in s.workers || !s.workers[token].stage.Cleared? then s
      else
        var g := s.workers[token].stage;
        Moved(s, token, Waiting(g.position, g.view, g.row)).(sends := s.sends + [g.row])
    case Answer(token, result) =>
      if token !in s.workers || !s.workers[token].stage.Waiting? || !(result.Completed? || result.Failed?) then s
      else AnswerStep(s, token, result)
    case Publish(token) => if token in s.workers && s.workers[token].stage.Returned? then EndStep(s, token, Over) else s
    case Fail(token) =>
      if token in s.workers && s.workers[token].stage.Failing?
      then EndStep(s, token, GivenUp(s.workers[token].stage.quota)) else s
    case Abort(token) =>
      if token in s.workers && s.workers[token].stage.Deciding? then EndStep(s, token, GivenUp(false)) else s
    case Cancel => s.(active := false, phase := Over)
    case Crash(token) => if token in s.workers then Moved(s, token, Stopped) else s
  }

  const INITIAL := State([], 0, false, Open, 0, 0, false, map[], [], {})

  function Continue(s: State, steps: seq<Step>): State
    decreases |steps|
  {
    if steps == [] then s else Continue(Next(s, steps[0]), steps[1..])
  }

  function Run(steps: seq<Step>): State {
    Continue(INITIAL, steps)
  }

  // ----- What every reachable state satisfies -----

  /** At most one row per model and run. */
  ghost predicate UniqueRows(ledger: seq<Entry>) {
    forall a, b :: 0 <= a < b < |ledger| ==> ledger[a].model != ledger[b].model || ledger[a].index != ledger[b].index
  }

  predicate Busy(g: Stage) {
    g.Marked? || g.Cleared? || g.Waiting?
  }

  /** A busy worker's row is its own: of its model and run, marked, and sent only if it sent it. */
  ghost predicate OwnsRow(s: State, token: nat)
    requires token in s.workers && Busy(s.workers[token].stage)
  {
    var w := s.workers[token];
    && w.stage.position < |ORDER| && w.stage.row < |s.ledger|
    && s.ledger[w.stage.row].model == ORDER[w.stage.position] && s.ledger[w.stage.row].index == w.index
    && s.ledger[w.stage.row].outcome == Uncertain
    && (w.stage.row in s.sends ==> w.stage.Waiting?)
  }

  ghost predicate BothBusy(s: State, t: nat, u: nat) {
    t != u && t in s.workers && u in s.workers && Busy(s.workers[t].stage) && Busy(s.workers[u].stage)
  }

  ghost predicate RowsOwned(s: State) {
    && (forall t :: t in s.workers && Busy(s.workers[t].stage) ==> OwnsRow(s, t))
    && (forall t, u :: BothBusy(s, t, u) ==> s.workers[t].stage.row != s.workers[u].stage.row)
  }

  /** Sent rows are marked rows, and no row is sent twice. */
  ghost predicate SendsOnce(s: State) {
    && (forall a :: 0 <= a < |s.sends| ==> s.sends[a] < |s.ledger| && s.ledger[s.sends[a]].outcome != Reserved)
    && (forall a, b :: 0 <= a < b < |s.sends| ==> s.sends[a] != s.sends[b])
  }

  /** The primary model was refused for quota, or tried without a result. */
  ghost predicate Passed(s: State, index: nat) {
    || (Primary, index) in s.refused
    || (exists e :: e in s.ledger && e.model == Primary && e.index == index && e.outcome != Reserved && e.outcome != Completed)
  }

  /** The run is done with the primary model: it was passed, and no row of it is open or completed. */
  ghost predicate DoneWithPrimary(s: State, index: nat) {
    Passed(s, index)
    && forall e :: e in s.ledger && e.model == Primary && e.index == index ==>
         e.outcome != Reserved && e.outcome != Completed
  }

  /** A fallback row stands only in a run that is done with its primary, and a reserved one only in a
      run without a row of the primary. */
  ghost predicate InOrder(s: State) {
    && (forall f :: f in s.ledger && f.model == Fallback ==> DoneWithPrimary(s, f.index))
    && (forall e, f :: e in s.ledger && f in s.ledger && ReservedBeside(e, f) ==> e.index != f.index)
  }

  predicate ReservedBeside(e: Entry, f: Entry) {
    e.model == Primary && f.model == Fallback && f.outcome == Reserved
  }

  /** While a worker holds the lease, what it read is what the ledger says about the models it has
      not reached, no row of its run is completed, and the models it has passed are dealt with. */
  ghost predicate UpToDate(s: State) {
    Fenced(s, s.token) ==>
      var w := s.workers[s.token];
      var g := w.stage;
      && w.index == CurrentIndex(s)
      && (g.Deciding? || Busy(g) ==>
            && (forall e :: e in s.ledger && e.index == w.index ==> e.outcome != Completed)
            && (g.position > 0 ==> DoneWithPrimary(s, w.index)))
      && (g.Deciding? ==> forall k :: g.position <= k < |ORDER| ==> SeesModel(s.ledger, w.index, g.view, ORDER[k]))
      && (Busy(g) ==> forall k :: g.position < k < |ORDER| ==> SeesModel(s.ledger, w.index, g.view, ORDER[k]))
      && (Busy(g) && g.position == 0 ==> forall e :: e in s.ledger && e.index == w.index ==> e.model == Primary)
  }

  ghost predicate SeesModel(ledger: seq<Entry>, index: nat, view: map<Model, Outcome>, m: Model) {
    && (m in view ==> Entry(m, index, view[m]) in ledger)
    && (m !in view ==> forall e :: e in ledger && e.index == index ==> e.model != m)
  }

  ghost predicate Numbered(s: State) {
    && s.retries <= MAX_RETRIES && (s.active ==> s.phase.Open?)
    && (forall e :: e in s.ledger ==> e.index <= CurrentIndex(s))
    && (forall t :: t in s.workers ==> t <= s.token)
    && (forall r :: r in s.refused ==> r.1 <= CurrentIndex(s))
    && (forall t :: t in s.workers ==> s.workers[t].index <= CurrentIndex(s))
  }

  ghost predicate Inv(s: State) {
    Numbered(s) && UniqueRows(s.ledger) && RowsOwned(s) && SendsOnce(s) && InOrder(s) && UpToDate(s)
  }

  // ----- Every step keeps it -----

  lemma {:induction false} ViewSees(ledger: seq<Entry>, index: nat)
    requires UniqueRows(ledger)
    ensures forall m :: SeesModel(ledger, index, View(ledger, index), m)
  {
    if ledger != [] {
      var before := ledger[..|ledger| - 1];
      ViewSees(before, index);
      assert ledger == before + [ledger[|ledger| - 1]];
      forall m ensures SeesModel(ledger, index, View(ledger, index), m) {
        assert SeesModel(before, index, View(before, index), m);
      }
    }
  }

  /** Worker `token` goes on to a stage that needs no new row. */
  lemma MoveKeepsInv(s: State, token: nat, g: Stage)
    requires Inv(s) && token in s.workers
    requires Busy(g) ==> Busy(s.workers[token].stage) && !g.Waiting? && g.row == s.workers[token].stage.row
                         && g.position == s.workers[token].stage.position && !s.workers[token].stage.Waiting?
    requires token == s.token && s.active ==> UpToDate(Moved(s, token, g))
    ensures Inv(Moved(s, token, g))
  {
    var s' := Moved(s, token, g);
    assert RowsOwned(s') by {
      forall t | t in s'.workers && Busy(s'.workers[t].stage) ensures OwnsRow(s', t) { assert OwnsRow(s, t); }
      forall t: nat, u: nat | BothBusy(s', t, u) ensures s'.workers[t].stage.row != s'.workers[u].stage.row {
        assert BothBusy(s, t, u);
      }
    }
    assert InOrder(s') by { PassedStays(s, s'); }
    assert UpToDate(s') by { PassedStays(s, s'); }
  }

  /** Passing the primary model is never undone while rows keep their place and stay uncompleted. */
  lemma PassedStays(s: State, s': State)
    requires s'.ledger == s.ledger && s.refused <= s'.refused
    ensures forall i :: Passed(s, i) ==> Passed(s', i)
  {
  }

  /** Lease changes: the tables stay, workers stay, a new worker starts from the beginning. */
  lemma LeaseKeepsInv(s: State, s': State)
    requires Inv(s) && s'.ledger == s.ledger && s'.sends == s.sends && s'.refused == s.refused
    requires forall t :: t in s'.workers ==> s'.workers[t].stage.Claimed? || (t in s.workers && s'.workers[t] == s.workers[t])
    requires Numbered(s') && (Fenced(s', s'.token) ==> s'.workers[s'.token] == Worker(CurrentIndex(s'), Claimed))
    ensures Inv(s')
  {
    forall t | t in s'.workers && Busy(s'.workers[t].stage) ensures OwnsRow(s', t) { assert OwnsRow(s, t); }
    forall t: nat, u: nat | BothBusy(s', t, u) ensures s'.workers[t].stage.row != s'.workers[u].stage.row {
      assert BothBusy(s, t, u);
    }
    PassedStays(s, s');
  }

  lemma ClaimKeepsInv(s: State)
    requires Inv(s)
    ensures Inv(Next(s, Claim)) && Inv(Next(s, Expire)) && Inv(Next(s, Requeue))
  {
    hide UniqueRows, RowsOwned, SendsOnce, InOrder, UpToDate;
    LeaseKeepsInv(s, Next(s, Expire));
    if !s.active && s.phase.Open? { LeaseKeepsInv(s, Next(s, Claim)); }
    if s.active && s.retries < MAX_RETRIES { LeaseKeepsInv(s, Next(s, Requeue)); }
  }

  lemma CancelKeepsInv(s: State)
    requires Inv(s)
    ensures Inv(Next(s, Cancel))
  {
    hide UniqueRows, RowsOwned, SendsOnce, InOrder, UpToDate;
    LeaseKeepsInv(s, Next(s, Cancel));
  }

  lemma EndKeepsInv(s: State, token: nat, phase: Phase)
    requires Inv(s) && token in s.workers
    ensures Inv(EndStep(s, token, phase))
  {
    hide UniqueRows, RowsOwned, SendsOnce, InOrder;
    var stopped := Moved(s, token, Stopped);
    MoveKeepsInv(s, token, Stopped);
    hide UpToDate;
    if Fenced(s, token) { LeaseKeepsInv(stopped, EndStep(s, token, phase)); }
  }

  lemma OwnerRetryKeepsInv(s: State, primaryRoom: bool, fallbackRoom: bool)
    requires Inv(s)
    ensures Inv(Next(s, OwnerRetry(primaryRoom, fallbackRoom)))
  {
    var s' := Next(s, OwnerRetry(primaryRoom, fallbackRoom));
    if s' != s {
      var e := s'.ledger[|s.ledger|];
      assert s'.ledger == s.ledger + [e];
      assert CurrentIndex(s) < e.index == CurrentIndex(s');
      assert forall k :: 0 <= k < |s.ledger| ==> s.ledger[k] in s.ledger;
      RowsGrow(s, s', e);
    }
  }

  /** Appending a row of a run and model that have none keeps ownership, sends and order. */
  lemma RowsGrow(s: State, s': State, e: Entry)
    requires Inv(s) && s'.ledger == s.ledger + [e] && s'.sends == s.sends && s.refused <= s'.refused
    requires s'.workers == s.workers
    requires forall x :: x in s.ledger ==> x.model != e.model || x.index != e.index
    requires e.outcome != Completed
    requires e.model == Fallback ==> DoneWithPrimary(s', e.index)
    requires e.model == Primary ==> forall x :: x in s.ledger && x.index == e.index ==> x.model == Primary
    requires e.model == Fallback && e.outcome == Reserved ==> forall x :: x in s.ledger ==> x.index != e.index
    ensures UniqueRows(s'.ledger) && RowsOwned(s') && SendsOnce(s') && InOrder(s')
    ensures forall i :: Passed(s, i) ==> Passed(s', i)
  {
    assert forall k :: 0 <= k < |s.ledger| ==> s.ledger[k] in s.ledger;
    assert forall x :: x in s'.ledger <==> x in s.ledger || x == e;
    forall t | t in s'.workers && Busy(s'.workers[t].stage) ensures OwnsRow(s', t) { assert OwnsRow(s, t); }
    forall t: nat, u: nat | BothBusy(s', t, u) ensures s'.workers[t].stage.row != s'.workers[u].stage.row {
      assert BothBusy(s, t, u);
    }
  }

  lemma ReadKeepsInv(s: State, token: nat)
    requires Inv(s)
    ensures Inv(Next(s, Read(token)))
  {
    if token in s.workers && s.workers[token].stage.Claimed? {
      var s' := Next(s, Read(token));
      var g := s'.workers[token].stage;
      var index := s.workers[token].index;
      if g.Deciding? && Fenced(s, token) {
        ViewSees(s.ledger, index);
        forall e | e in s.ledger && e.index == index ensures e.outcome != Completed {
          assert SeesModel(s.ledger, index, g.view, e.model);
          SameRow(s.ledger, e, Entry(e.model, index, g.view[e.model]));
        }
      }
      MoveKeepsInv(s, token, g);
    }
  }

  lemma SameRow(ledger: seq<Entry>, a: Entry, b: Entry)
    requires UniqueRows(ledger) && a in ledger && b in ledger && a.model == b.model && a.index == b.index
    ensures a == b
  {
  }

  /** The models a fenced worker passes over without a row of its own are dealt with. */
  lemma PassOverKeepsInv(s: State, token: nat)
    requires Inv(s) && token in s.workers && s.workers[token].stage.Deciding?
    requires var g := s.workers[token].stage;
             g.position >= |ORDER|
             || (ORDER[g.position] !in g.view && exists k :: g.position < k < |ORDER| && ORDER[k] in g.view)
             || (ORDER[g.position] in g.view && g.view[ORDER[g.position]] != Reserved)
    ensures var g := s.workers[token].stage;
            Inv(Moved(s, token, if g.position >= |ORDER| then Failing(EndsForQuota(s.ledger, s.workers[token].index)) else Deciding(g.position + 1, g.view)))
  {
    var g := s.workers[token].stage;
    var next := if g.position >= |ORDER| then Failing(EndsForQuota(s.ledger, s.workers[token].index)) else Deciding(g.position + 1, g.view);
    if Fenced(s, token) && g.position == 0 {
      var index := s.workers[token].index;
      assert SeesModel(s.ledger, index, g.view, ORDER[0]);
      assert SeesModel(s.ledger, index, g.view, ORDER[1]);
      assert DoneWithPrimary(s, index) by {
        if ORDER[0] in g.view {
          var e := Entry(Primary, index, g.view[Primary]);
          forall x | x in s.ledger && x.model == Primary && x.index == index ensures x == e { SameRow(s.ledger, x, e); }
        }
      }
    }
    MoveKeepsInv(s, token, next);
  }

  /** A refused reservation deals with the model. */
  lemma RefusalKeepsInv(s: State, token: nat)
    requires Inv(s) && token in s.workers && s.workers[token].stage.Deciding?
    requires s.workers[token].stage.position < |ORDER| && Fenced(s, token)
    requires Entry(ORDER[s.workers[token].stage.position], s.workers[token].index, Reserved) !in s.ledger
    ensures var g := s.workers[token].stage;
            Inv(Moved(s, token, Deciding(g.position + 1, g.view))
                  .(refused := s.refused + {(ORDER[g.position], s.workers[token].index)}))
  {
    var g := s.workers[token].stage;
    var added := s.(refused := s.refused + {(ORDER[g.position], s.workers[token].index)});
    PassedStays(s, added);
    assert Inv(added) by {
      forall t | t in added.workers && Busy(added.workers[t].stage) ensures OwnsRow(added, t) { assert OwnsRow(s, t); }
      forall t: nat, u: nat | BothBusy(added, t, u) ensures added.workers[t].stage.row != added.workers[u].stage.row {
        assert BothBusy(s, t, u);
      }
    }
    MoveKeepsInv(added, token, Deciding(g.position + 1, g.view));
  }

  /** Marking a new row for a model that the run has no row of. */
  lemma MarkNewKeepsInv(s: State, token: nat)
    requires Inv(s) && Fenced(s, token) && s.workers[token].stage.Deciding?
    requires var g := s.workers[token].stage;
             g.position < |ORDER|
             && !(ORDER[g.position] !in g.view && exists k :: g.position < k < |ORDER| && ORDER[k] in g.view)
             && !(ORDER[g.position] in g.view && g.view[ORDER[g.position]] != Reserved)
             && Entry(ORDER[g.position], s.workers[token].index, Reserved) !in s.ledger
    ensures var w := s.workers[token];
            Inv(Moved(s, token, Marked(w.stage.position, w.stage.view, |s.ledger|))
                  .(ledger := s.ledger + [Entry(ORDER[w.stage.position], w.index, Uncertain)], requestRecorded := true))
  {
    var w := s.workers[token];
    var g := w.stage;
    var e := Entry(ORDER[g.position], w.index, Uncertain);
    assert SeesModel(s.ledger, w.index, g.view, ORDER[g.position]);
    if g.position == 0 { assert SeesModel(s.ledger, w.index, g.view, ORDER[1]); }
    var grown := s.(ledger := s.ledger + [e], requestRecorded := true, active := false);
    RowsGrow(s, grown, e);
    var s' := Moved(s, token, Marked(g.position, g.view, |s.ledger|)).(ledger := s.ledger + [e], requestRecorded := true);
    hide DoneWithPrimary, Passed;
    forall t | t in s'.workers && Busy(s'.workers[t].stage) ensures OwnsRow(s', t) {
      if t != token { assert OwnsRow(grown, t); }
    }
    forall t: nat, u: nat | BothBusy(s', t, u) ensures s'.workers[t].stage.row != s'.workers[u].stage.row {
      if t != token { assert OwnsRow(s, t); }
      if u != token { assert OwnsRow(s, u); }
      if t != token && u != token { assert BothBusy(s, t, u); }
    }
    assert forall x :: x in s'.ledger <==> x in s.ledger || x == e;
    forall k | g.position < k < |ORDER| ensures SeesModel(s'.ledger, w.index, g.view, ORDER[k]) {
      assert SeesModel(s.ledger, w.index, g.view, ORDER[k]);
    }
  }

  /** Marking the row an owner retry reserved. */
  lemma MarkReservedKeepsInv(s: State, token: nat, k: nat)
    requires Inv(s) && Fenced(s, token) && s.workers[token].stage.Deciding?
    requires s.workers[token].stage.position < |ORDER| && k < |s.ledger|
    requires s.ledger[k] == Entry(ORDER[s.workers[token].stage.position], s.workers[token].index, Reserved)
    ensures var w := s.workers[token];
            Inv(Moved(s, token, Marked(w.stage.position, w.stage.view, k))
                  .(ledger := s.ledger[k := Entry(ORDER[w.stage.position], w.index, Uncertain)]))
  {
    var w := s.workers[token];
    var g := w.stage;
    var e := Entry(ORDER[g.position], w.index, Uncertain);
    var s' := Moved(s, token, Marked(g.position, g.view, k)).(ledger := s.ledger[k := e]);
    RowsRewritten(s, s', k);
    forall t | t in s'.workers && Busy(s'.workers[t].stage) ensures OwnsRow(s', t) {
      if t != token { assert OwnsRow(s, t); }
    }
    forall t: nat, u: nat | BothBusy(s', t, u) ensures s'.workers[t].stage.row != s'.workers[u].stage.row {
      if t != token { assert OwnsRow(s, t); }
      if u != token { assert OwnsRow(s, u); }
      if t != token && u != token { assert BothBusy(s, t, u); }
    }
    forall j | g.position < j < |ORDER| ensures SeesModel(s'.ledger, w.index, g.view, ORDER[j]) {
      assert SeesModel(s.ledger, w.index, g.view, ORDER[j]);
      SeesRewritten(s, s', k, w.index, g.view, ORDER[j]);
    }
    if g.position == 0 {
      assert !DoneWithPrimary(s, w.index) by { assert s.ledger[k] in s.ledger; }
      forall x | x in s'.ledger && x.index == w.index ensures x.model == Primary {
        assert x.model == Primary || x in s.ledger;
      }
    }
  }

  /** Rewriting the outcome of one row: every other row stays where it is. */
  lemma RowsRewritten(s: State, s': State, k: nat)
    requires k < |s.ledger| == |s'.ledger|
    requires s'.ledger == s.ledger[k := s.ledger[k].(outcome := s'.ledger[k].outcome)]
    requires UniqueRows(s.ledger)
    ensures UniqueRows(s'.ledger)
    ensures forall x :: x in s'.ledger <==> x == s'.ledger[k] || (x in s.ledger && x != s.ledger[k])
  {
    forall x | x in s'.ledger && x != s'.ledger[k] ensures x in s.ledger && x != s.ledger[k] {
      var a :| 0 <= a < |s'.ledger| && s'.ledger[a] == x;
      assert s.ledger[a] == x;
    }
    forall x | x in s.ledger && x != s.ledger[k] ensures x in s'.ledger {
      var a :| 0 <= a < |s.ledger| && s.ledger[a] == x;
      assert s'.ledger[a] == x;
    }
  }

  lemma SeesRewritten(s: State, s': State, k: nat, index: nat, view: map<Model, Outcome>, m: Model)
    requires k < |s.ledger| == |s'.ledger|
    requires s'.ledger == s.ledger[k := s.ledger[k].(outcome := s'.ledger[k].outcome)]
    requires UniqueRows(s.ledger) && SeesModel(s.ledger, index, view, m)
    requires s.ledger[k].model != m || s.ledger[k].index != index
    ensures SeesModel(s'.ledger, index, view, m)
  {
    RowsRewritten(s, s', k);
  }

  lemma SendKeepsInv(s: State, token: nat)
    requires Inv(s)
    ensures Inv(Next(s, Send(token)))
  {
    if token in s.workers && s.workers[token].stage.Cleared? {
      SendKeepsRows(s, token);
      hide RowsOwned, SendsOnce, UniqueRows;
      PassedStays(s, Next(s, Send(token)));
    }
  }

  lemma SendKeepsRows(s: State, token: nat)
    requires Inv(s) && token in s.workers && s.workers[token].stage.Cleared?
    ensures RowsOwned(Next(s, Send(token))) && SendsOnce(Next(s, Send(token)))
  {
    hide InOrder, UpToDate, UniqueRows, Numbered;
    var s' := Next(s, Send(token));
    assert OwnsRow(s, token);
    forall t | t in s'.workers && Busy(s'.workers[t].stage) ensures OwnsRow(s', t) {
      assert OwnsRow(s, t);
      if t != token { assert BothBusy(s, t, token); }
    }
    forall t: nat, u: nat | BothBusy(s', t, u) ensures s'.workers[t].stage.row != s'.workers[u].stage.row {
      assert BothBusy(s, t, u);
    }
  }

  lemma WaitingOwnsRow(s: State, token: nat)
    requires Inv(s) && token in s.workers && s.workers[token].stage.Waiting?
    ensures OwnsRow(s, token) && s.workers[token].stage.row < |s.ledger|
  {
    hide SendsOnce, InOrder, UpToDate, Passed, DoneWithPrimary, UniqueRows;
    assert OwnsRow(s, token);
  }

  lemma AnswerKeepsInv(s: State, token: nat, result: Outcome)
    requires Inv(s) && token in s.workers && s.workers[token].stage.Waiting? && (result.Completed? || result.Failed?)
    ensures Inv(AnswerStep(s, token, result))
  {
    hide Inv, OwnsRow;
    WaitingOwnsRow(s, token);
    if !Fenced(s, token) {
      MoveKeepsInv(s, token, Stopped);
    } else {
      RecordKeepsInv(s, token, result);
    }
  }

  lemma RecordKeepsInv(s: State, token: nat, result: Outcome)
    requires Inv(s) && Fenced(s, token) && s.workers[token].stage.Waiting? && OwnsRow(s, token)
    requires result.Completed? || result.Failed?
    ensures var g := s.workers[token].stage;
            Inv(Moved(s, token, if result.Completed? then Returned else Deciding(g.position + 1, g.view))
                  .(ledger := s.ledger[g.row := s.ledger[g.row].(outcome := result)]))
  {
    hide DoneWithPrimary, Passed, InOrder, SeesModel, RowsOwned, SendsOnce;
    var w := s.workers[token];
    var g := w.stage;
    var next := if result.Completed? then Returned else Deciding(g.position + 1, g.view);
    var s' := Moved(s, token, next).(ledger := s.ledger[g.row := s.ledger[g.row].(outcome := result)]);
    RowsRewritten(s, s', g.row);
    RowsStayOwned(s, s', token, next);
    OrderRewritten(s, s', token);
    if next.Deciding? {
      forall j | next.position <= j < |ORDER| ensures SeesModel(s'.ledger, w.index, g.view, ORDER[j]) {
        assert SeesModel(s.ledger, w.index, g.view, ORDER[j]);
        SeesRewritten(s, s', g.row, w.index, g.view, ORDER[j]);
      }
    }
  }

  lemma RowsStayOwned(s: State, s': State, token: nat, next: Stage)
    requires Inv(s) && token in s.workers && s.workers[token].stage.Waiting? && OwnsRow(s, token) && !Busy(next)
    requires s'.workers == Moved(s, token, next).workers && s'.sends == s.sends
    requires var k := s.workers[token].stage.row;
             && |s'.ledger| == |s.ledger| && s'.ledger[k].outcome != Reserved
             && s'.ledger == s.ledger[k := s.ledger[k].(outcome := s'.ledger[k].outcome)]
    ensures RowsOwned(s') && SendsOnce(s')
  {
    hide InOrder, UpToDate, UniqueRows, Numbered;
    forall t | t in s'.workers && Busy(s'.workers[t].stage) ensures OwnsRow(s', t) {
      assert OwnsRow(s, t) && BothBusy(s, t, token);
    }
    forall t: nat, u: nat | BothBusy(s', t, u) ensures s'.workers[t].stage.row != s'.workers[u].stage.row {
      assert BothBusy(s, t, u);
    }
  }

  /** Recording a result of a fenced worker keeps the order of the models: a completed primary has
      no fallback row beside it, and a failed one is passed. */
  lemma OrderRewritten(s: State, s': State, token: nat)
    requires Inv(s) && Fenced(s, token) && s.workers[token].stage.Waiting? && OwnsRow(s, token)
    requires s'.refused == s.refused
    requires var k := s.workers[token].stage.row;
             && |s'.ledger| == |s.ledger| && s'.ledger[k].outcome != Reserved
             && s'.ledger == s.ledger[k := s.ledger[k].(outcome := s'.ledger[k].outcome)]
    ensures InOrder(s')
    ensures s'.ledger[s.workers[token].stage.row].outcome != Completed ==> DoneWithPrimary(s', s.workers[token].index)
  {
    var w := s.workers[token];
    var k := w.stage.row;
    RowsRewritten(s, s', k);
    forall i | DoneWithPrimary(s, i) && (i != w.index || w.stage.position == 1) ensures DoneWithPrimary(s', i) {
      if (Primary, i) !in s.refused {
        var e :| e in s.ledger && e.model == Primary && e.index == i && e.outcome != Reserved && e.outcome != Completed;
        assert e in s'.ledger;
      }
    }
    forall f | f in s'.ledger && f.model == Fallback ensures DoneWithPrimary(s', f.index) {
      if f != s'.ledger[k] { assert f in s.ledger; }
    }
    if w.stage.position == 0 {
      forall x | x in s'.ledger && x.model == Primary && x.index == w.index ensures x == s'.ledger[k] {
        SameRow(s'.ledger, x, s'.ledger[k]);
      }
    }
  }

  lemma StepKeepsInv(s: State, step: Step)
    requires Inv(s)
    ensures Inv(Next(s, step))
  {
    match step
    case Expire => ClaimKeepsInv(s);
    case Claim => ClaimKeepsInv(s);
    case Requeue => ClaimKeepsInv(s);
    case OwnerRetry(a, b) => OwnerRetryKeepsInv(s, a, b);
    case Read(t) => ReadKeepsInv(s, t);
    case Decide(t, room) => if t in s.workers && s.workers[t].stage.Deciding? { DecideKeepsInv(s, t, room); }
    case Beat(t) =>
      if t in s.workers && s.workers[t].stage.Marked? { MoveKeepsInv(s, t, Next(s, step).workers[t].stage); }
    case Send(t) => SendKeepsInv(s, t);
    case Answer(t, result) =>
      if t in s.workers && s.workers[t].stage.Waiting? && (result.Completed? || result.Failed?) { AnswerKeepsInv(s, t, result); }
    case Publish(t) => if t in s.workers { EndKeepsInv(s, t, Over); }
    case Fail(t) =>
      if t in s.workers && s.workers[t].stage.Failing? { EndKeepsInv(s, t, GivenUp(s.workers[t].stage.quota)); }
    case Abort(t) => if t in s.workers { EndKeepsInv(s, t, GivenUp(false)); }
    case Cancel => CancelKeepsInv(s);
    case Crash(t) => if t in s.workers { MoveKeepsInv(s, t, Stopped); }
  }

  lemma DecideKeepsInv(s: State, token: nat, room: bool)
    requires Inv(s) && token in s.workers && s.workers[token].stage.Deciding?
    ensures Inv(DecideStep(s, token, room))
  {
    hide Inv;
    var w := s.workers[token];
    var p, view := w.stage.position, w.stage.view;
    if p >= |ORDER| || (ORDER[p] !in view && exists k :: p < k < |ORDER| && ORDER[k] in view)
      || (ORDER[p] in view && view[ORDER[p]] != Reserved) {
      PassOverKeepsInv(s, token);
    } else if !Fenced(s, token) {
      MoveKeepsInv(s, token, Stopped);
    } else {
      match FindReserved(s.ledger, ORDER[p], w.index)
      case Some(k) => MarkReservedKeepsInv(s, token, k);
      case None => if room { MarkNewKeepsInv(s, token); } else { RefusalKeepsInv(s, token); }
    }
  }

  lemma {:induction false} ContinueKeepsInv(s: State, steps: seq<Step>)
    requires Inv(s)
    ensures Inv(Continue(s, steps))
    decreases |steps|
  {
    if steps != [] {
      StepKeepsInv(s, steps[0]);
      ContinueKeepsInv(Next(s, steps[0]), steps[1..]);
    }
  }

  lemma RunKeepsInv(steps: seq<Step>)
    ensures Inv(Run(steps))
  {
    ContinueKeepsInv(INITIAL, steps);
  }

  // ----- What holds over every run -----

  /** Whatever the crashes, lost leases, re-claims and retries, one run sends each model at most one
      request, and every request stands behind a ledger row that says it may have been sent. */
  lemma AtMostOneSend(steps: seq<Step>)
    ensures var s := Run(steps);
            && (forall a :: 0 <= a < |s.sends| ==> s.sends[a] < |s.ledger| && s.ledger[s.sends[a]].outcome != Reserved)
            && forall a, b :: 0 <= a < b < |s.sends| ==>
                 s.ledger[s.sends[a]].model != s.ledger[s.sends[b]].model
                 || s.ledger[s.sends[a]].index != s.ledger[s.sends[b]].index
  {
    RunKeepsInv(steps);
  }

  /** The run has a stored result. */
  ghost predicate HasResult(s: State, index: nat) {
    exists e :: e in s.ledger && e.index == index && e.outcome == Completed
  }

  /** A worker about to send the fallback never meets a stored result of its run, lease or no lease,
      and a worker about to send the primary does not while it holds its lease. */
  lemma NoSendAfterCompletion(steps: seq<Step>, token: nat)
    requires token in Run(steps).workers && Run(steps).workers[token].stage.Cleared?
    ensures var s := Run(steps); var w := s.workers[token];
            w.stage.position == 1 || Fenced(s, token) ==> !HasResult(s, w.index)
  {
    RunKeepsInv(steps);
    ClearedSendsInTime(Run(steps), token);
  }

  lemma ClearedSendsInTime(s: State, token: nat)
    requires Inv(s) && token in s.workers && s.workers[token].stage.Cleared?
    ensures var w := s.workers[token];
            w.stage.position == 1 || Fenced(s, token) ==> !HasResult(s, w.index)
  {
    hide Passed, SeesModel, Numbered, SendsOnce;
    var w := s.workers[token];
    assert OwnsRow(s, token);
    var own := s.ledger[w.stage.row];
    assert own in s.ledger;
    if w.stage.position == 1 {
      forall e | e in s.ledger && e.index == w.index ensures e.outcome != Completed {
        if e.model == Fallback { SameRow(s.ledger, e, own); }
      }
    }
  }

  // ----- Exactly when a primary request can come too late -----

  /** No row of the fallback stands in the run yet. */
  ghost predicate NoFallback(s: State, index: nat) {
    forall e :: e in s.ledger && e.index == index ==> e.model != Fallback
  }

  /** The holder of the lease has a request of the fallback under way. */
  predicate FallbackUnderway(s: State) {
    Fenced(s, s.token) && Busy(s.workers[s.token].stage) && s.workers[s.token].stage.position == 1
  }

  /** The run has a result, or it is the current one of a job that is still open and the fallback can
      give it one: it has no row yet, or its row belongs to the holder of the lease. */
  ghost predicate CanFinish(s: State, index: nat) {
    HasResult(s, index) || (index == CurrentIndex(s) && s.phase.Open? && (NoFallback(s, index) || FallbackUnderway(s)))
  }

  /** Steps in which this worker neither sends nor crashes. */
  ghost predicate Spares(steps: seq<Step>, token: nat) {
    Send(token) !in steps && Crash(token) !in steps
  }

  /** Before the worker's request goes out, its run can get a result. */
  ghost predicate MayBeLate(s: State, token: nat)
    requires token in s.workers
  {
    exists steps :: Spares(steps, token) && HasResult(Continue(s, steps), s.workers[token].index)
  }

  lemma IndexGrows(s: State, step: Step)
    requires Inv(s)
    ensures CurrentIndex(s) <= CurrentIndex(Next(s, step))
  {
    hide UniqueRows, RowsOwned, SendsOnce, InOrder, UpToDate, FindReserved, View, ReplaySafe;
  }

  /** An ended job is opened again only for another run. */
  lemma EndedStays(s: State, step: Step)
    requires Inv(s) && !s.phase.Open?
    ensures !Next(s, step).phase.Open? || CurrentIndex(s) < CurrentIndex(Next(s, step))
  {
    hide UniqueRows, RowsOwned, SendsOnce, InOrder, UpToDate, FindReserved, View, ReplaySafe;
  }

  /** Rows are only added, and only their outcomes change. */
  ghost predicate SamePlaces(ledger: seq<Entry>, after: seq<Entry>) {
    && |ledger| <= |after|
    && forall k :: 0 <= k < |ledger| ==> after[k].model == ledger[k].model && after[k].index == ledger[k].index
  }

  lemma RowsStay(s: State, step: Step, index: nat)
    ensures !NoFallback(s, index) ==> !NoFallback(Next(s, step), index)
  {
    hide Next;
    var s' := Next(s, step);
    PlacesStay(s, step);
    if !NoFallback(s, index) {
      var e :| e in s.ledger && e.index == index && e.model == Fallback;
      var k :| 0 <= k < |s.ledger| && s.ledger[k] == e;
      assert s'.ledger[k] in s'.ledger;
    }
  }

  lemma PlacesStay(s: State, step: Step)
    ensures SamePlaces(s.ledger, Next(s, step).ledger)
  {
    hide View, ReplaySafe, Fenced, DecideStep;
    if step.Decide? && step.token in s.workers && s.workers[step.token].stage.Deciding? {
      DecidingKeepsPlaces(s, step.token, step.room);
    }
  }

  lemma DecidingKeepsPlaces(s: State, token: nat, room: bool)
    requires token in s.workers && s.workers[token].stage.Deciding?
    ensures SamePlaces(s.ledger, DecideStep(s, token, room).ledger)
  {
    hide Fenced;
  }

  /** Only the holder of the lease, in the current run, completes a row; before the fallback is under
      way this is the primary's, and there is no other. */
  lemma NewResult(s: State, step: Step, index: nat)
    requires Inv(s) && !HasResult(s, index) && HasResult(Next(s, step), index)
    ensures index == CurrentIndex(s) && s.phase.Open? && (NoFallback(s, index) || FallbackUnderway(s))
  {
    hide SendsOnce, InOrder, SeesModel, View, ReplaySafe;
    var s' := Next(s, step);
    var e :| e in s'.ledger && e.index == index && e.outcome == Completed;
    var k :| 0 <= k < |s'.ledger| && s'.ledger[k] == e;
    assert k < |s.ledger| ==> s.ledger[k] in s.ledger;
    assert step.Answer?;
    assert OwnsRow(s, step.token);
  }

  /** Only a run without a row of the fallback, or with a reserved one, gets the fallback under way. */
  lemma NewUnderway(s: State, step: Step)
    requires Inv(s) && !FallbackUnderway(s) && FallbackUnderway(Next(s, step))
    ensures var i := CurrentIndex(s);
            CurrentIndex(Next(s, step)) == i && s.phase.Open? && (NoFallback(s, i) || Entry(Fallback, i, Reserved) in s.ledger)
  {
    hide UniqueRows, RowsOwned, SendsOnce, InOrder, View, ReplaySafe, FindReserved, DoneWithPrimary;
    var g := s.workers[s.token].stage;
    assert Fenced(s, s.token) && g.Deciding? && g.position == 1;
    assert SeesModel(s.ledger, CurrentIndex(s), g.view, ORDER[1]);
  }

  lemma WorkerStays(s: State, step: Step, token: nat)
    requires Numbered(s) && token in s.workers && s.workers[token].stage.Cleared?
    requires step != Send(token) && step != Crash(token)
    ensures var s' := Next(s, step); token in s'.workers && s'.workers[token] == s.workers[token]
  {
    hide View, ReplaySafe, FindReserved, Fenced, DecideStep, AnswerStep;
    if step.Decide? && step.token in s.workers && s.workers[step.token].stage.Deciding? {
      OthersStay(s, step.token, step.room, Completed, token);
    } else if step.Answer? && step.token in s.workers && s.workers[step.token].stage.Waiting? {
      OthersStay(s, step.token, true, step.result, token);
    }
  }

  lemma OthersStay(s: State, t: nat, room: bool, result: Outcome, token: nat)
    requires t in s.workers && token in s.workers && t != token
    ensures s.workers[t].stage.Deciding? ==>
              var s' := DecideStep(s, t, room); token in s'.workers && s'.workers[token] == s.workers[token]
    ensures s.workers[t].stage.Waiting? ==>
              var s' := AnswerStep(s, t, result); token in s'.workers && s'.workers[token] == s.workers[token]
  {
    hide FindReserved, Fenced;
  }

  /** The primary row of a cleared worker rules out a reserved row of the fallback. */
  lemma FallbackTaken(s: State, token: nat)
    requires Inv(s) && token in s.workers && s.workers[token].stage.Cleared? && s.workers[token].stage.position == 0
    ensures var i := s.workers[token].index;
            && Entry(Primary, i, Uncertain) in s.ledger && Entry(Fallback, i, Reserved) !in s.ledger
  {
    hide DoneWithPrimary, SeesModel, UpToDate, SendsOnce;
    assert OwnsRow(s, token);
    var own := s.ledger[s.workers[token].stage.row];
    assert own in s.ledger;
    assert ReservedBeside(own, Entry(Fallback, own.index, Reserved));
  }

  lemma StaysUnfinished(s: State, step: Step, token: nat)
    requires Inv(s) && token in s.workers && s.workers[token].stage.Cleared? && s.workers[token].stage.position == 0
    requires step != Send(token) && step != Crash(token) && !CanFinish(s, s.workers[token].index)
    ensures !CanFinish(Next(s, step), s.workers[token].index)
  {
    hide Next, Passed, SendsOnce, InOrder, DoneWithPrimary;
    var i := s.workers[token].index;
    var s' := Next(s, step);
    FallbackTaken(s, token);
    IndexGrows(s, step);
    RowsStay(s, step, i);
    if !s.phase.Open? { EndedStays(s, step); }
    if HasResult(s', i) {
      NewResult(s, step, i);
    }
    if !FallbackUnderway(s) && FallbackUnderway(s') && i == CurrentIndex(s') {
      NewUnderway(s, step);
    }
  }

  lemma {:induction false} NeverFinishes(s: State, steps: seq<Step>, token: nat)
    requires Inv(s) && token in s.workers && s.workers[token].stage.Cleared? && Spares(steps, token)
    requires !(s.workers[token].stage.position == 0 && CanFinish(s, s.workers[token].index))
    ensures !HasResult(Continue(s, steps), s.workers[token].index)
    decreases |steps|
  {
    hide Inv, Next, HasResult, NoFallback, FallbackUnderway, Fenced;
    if steps == [] {
      PositionInOrder(s, token);
      ClearedSendsInTime(s, token);
    } else {
      var s' := Next(s, steps[0]);
      assert Numbered(s) by { PositionInOrder(s, token); }
      WorkerStays(s, steps[0], token);
      StepKeepsInv(s, steps[0]);
      if s.workers[token].stage.position == 0 { StaysUnfinished(s, steps[0], token); }
      assert Spares(steps[1..], token);
      NeverFinishes(s', steps[1..], token);
    }
  }

  lemma PositionInOrder(s: State, token: nat)
    requires Inv(s) && token in s.workers && s.workers[token].stage.Cleared?
    ensures s.workers[token].stage.position <= 1 && Numbered(s)
  {
    assert OwnsRow(s, token);
  }

  /** The holder of the lease finishes its request. */
  lemma {:induction false} Finish(s: State, t: nat, index: nat) returns (steps: seq<Step>)
    requires Fenced(s, t) && Busy(s.workers[t].stage) && s.workers[t].stage.row < |s.ledger|
    requires s.ledger[s.workers[t].stage.row].index == index
    ensures forall step :: step in steps ==> step in {Beat(t), Send(t), Answer(t, Completed)}
    ensures HasResult(Continue(s, steps), index)
    decreases if s.workers[t].stage.Marked? then 2 else if s.workers[t].stage.Cleared? then 1 else 0
  {
    var g := s.workers[t].stage;
    var step := if g.Marked? then Beat(t) else if g.Cleared? then Send(t) else Answer(t, Completed);
    var rest: seq<Step> := [];
    var s' := Next(s, step);
    if g.Waiting? {
      assert s'.ledger[g.row] in s'.ledger;
      assert Continue(s', rest) == s';
    } else {
      rest := Finish(s', t, index);
    }
    steps := [step] + rest;
    assert steps[1..] == rest;
  }

  /** A new worker has taken over the current run and is at this stage. */
  function TakenOver(s: State, stage: Stage): State {
    s.(token := s.token + 1, active := true, workers := s.workers[s.token + 1 := Worker(CurrentIndex(s), stage)])
  }

  lemma NewWorkerSees(s: State) returns (view: map<Model, Outcome>)
    requires UniqueRows(s.ledger) && NoFallback(s, CurrentIndex(s)) && Entry(Primary, CurrentIndex(s), Uncertain) in s.ledger
    ensures view == View(s.ledger, CurrentIndex(s)) == map[Primary := Uncertain]
  {
    var i := CurrentIndex(s);
    view := View(s.ledger, i);
    ViewSees(s.ledger, i);
    hide View;
    assert SeesModel(s.ledger, i, view, Primary) && SeesModel(s.ledger, i, view, Fallback);
    SameRow(s.ledger, Entry(Primary, i, Uncertain), Entry(Primary, i, view[Primary]));
    assert forall m :: m in view <==> m == Primary by {
      forall m ensures m in view <==> m == Primary { assert m == Primary || m == Fallback; }
    }
  }

  lemma NewWorkerReads(s: State)
    requires UniqueRows(s.ledger) && NoFallback(s, CurrentIndex(s)) && Entry(Primary, CurrentIndex(s), Uncertain) in s.ledger
    requires s.phase.Open?
    ensures var taken := Next(Next(s, Expire), Step.Claim);
            Next(taken, Read(s.token + 1)) == TakenOver(s, Deciding(0, SEEN))
  {
    var view := NewWorkerSees(s);
    hide View, FindReserved, ReplaySafe;
    var taken := Next(Next(s, Expire), Step.Claim);
    assert taken == TakenOver(s, Claimed);
    assert CurrentIndex(taken) == CurrentIndex(s);
  }

  lemma NewWorkerMarks(s: State)
    requires NoFallback(s, CurrentIndex(s))
    ensures var passed := Next(TakenOver(s, Deciding(0, SEEN)), Decide(s.token + 1, true));
            var marked := Next(passed, Decide(s.token + 1, true));
            && Fenced(marked, s.token + 1) && marked.workers[s.token + 1].stage == Marked(1, SEEN, |s.ledger|)
            && marked.ledger == s.ledger + [Entry(Fallback, CurrentIndex(s), Uncertain)]
  {
    hide View, FindReserved, ReplaySafe;
    var t := s.token + 1;
    var passed := Next(TakenOver(s, Deciding(0, SEEN)), Decide(t, true));
    assert passed == TakenOver(s, Deciding(1, SEEN));
    assert FindReserved(s.ledger, Fallback, CurrentIndex(s)).None?;
  }

  const SEEN := map[Primary := Uncertain]

  ghost predicate SparesUpTo(steps: seq<Step>, top: nat) {
    forall t: nat :: t <= top ==> Spares(steps, t)
  }

  lemma Prepend(s: State, step: Step, rest: seq<Step>, top: nat)
    requires SparesUpTo(rest, top) && (step.Send? || step.Crash? ==> step.token > top)
    ensures Continue(s, [step] + rest) == Continue(Next(s, step), rest) && SparesUpTo([step] + rest, top)
  {
    hide Next;
    assert ([step] + rest)[1..] == rest;
    forall t: nat | t <= top ensures Spares([step] + rest, t) {
      assert Spares(rest, t);
    }
  }

  /** A new worker takes over the current run and goes on to the fallback. */
  lemma FinishAfresh(s: State) returns (steps: seq<Step>)
    requires UniqueRows(s.ledger) && NoFallback(s, CurrentIndex(s)) && Entry(Primary, CurrentIndex(s), Uncertain) in s.ledger
    requires s.phase.Open?
    ensures SparesUpTo(steps, s.token)
    ensures HasResult(Continue(s, steps), CurrentIndex(s))
  {
    hide Next, NoFallback, UniqueRows, HasResult, Fenced, Continue;
    var t := s.token + 1;
    NewWorkerReads(s);
    NewWorkerMarks(s);
    var a := Next(s, Expire);
    var b := Next(a, Step.Claim);
    var c := Next(b, Read(t));
    var d := Next(c, Decide(t, true));
    var e := Next(d, Decide(t, true));
    var rest := Finish(e, t, CurrentIndex(s));
    assert SparesUpTo(rest, s.token);
    hide SparesUpTo;
    Prepend(d, Decide(t, true), rest, s.token);
    Prepend(c, Decide(t, true), [Decide(t, true)] + rest, s.token);
    var three := [Decide(t, true)] + ([Decide(t, true)] + rest);
    Prepend(b, Read(t), three, s.token);
    Prepend(a, Step.Claim, [Read(t)] + three, s.token);
    steps := [Expire] + ([Step.Claim] + ([Read(t)] + three));
    Prepend(s, Expire, [Step.Claim] + ([Read(t)] + three), s.token);
  }

  lemma FinishesFirst(s: State, token: nat) returns (steps: seq<Step>)
    requires Inv(s) && token in s.workers && s.workers[token].stage.Cleared? && s.workers[token].stage.position == 0
    requires CanFinish(s, s.workers[token].index)
    ensures Spares(steps, token) && HasResult(Continue(s, steps), s.workers[token].index)
  {
    hide InOrder, SendsOnce, HasResult, NoFallback, UniqueRows;
    var i := s.workers[token].index;
    if HasResult(s, i) {
      steps := [];
    } else if NoFallback(s, i) {
      FallbackTaken(s, token);
      steps := FinishAfresh(s);
    } else {
      assert OwnsRow(s, s.token);
      steps := Finish(s, s.token, i);
    }
  }

  /** The heartbeat before a request does not cover the request, so a worker that stalls between the
      two may send the primary after another has finished the same run: exactly when its run has a
      result already, or the job is open and the fallback can still give it one. The fallback is never
      sent late. */
  lemma LateSendIff(steps: seq<Step>, token: nat)
    requires token in Run(steps).workers && Run(steps).workers[token].stage.Cleared?
    ensures var s := Run(steps); var w := s.workers[token];
            MayBeLate(s, token) <==> w.stage.position == 0 && CanFinish(s, w.index)
  {
    hide Inv, CanFinish, HasResult, Run;
    var s := Run(steps);
    RunKeepsInv(steps);
    var late := s.workers[token].stage.position == 0 && CanFinish(s, s.workers[token].index);
    if late {
      var more := FinishesFirst(s, token);
    } else {
      forall more | Spares(more, token) ensures !HasResult(Continue(s, more), s.workers[token].index) {
        NeverFinishes(s, more, token);
      }
    }
  }

  lemma {:induction false} ContinueAppend(s: State, a: seq<Step>, b: seq<Step>)
    ensures Continue(s, a + b) == Continue(Continue(s, a), b)
    decreases |a|
  {
    if a == [] {
      assert a + b == b;
    } else {
      ContinueAppend(Next(s, a[0]), a[1..], b);
      assert (a + b)[1..] == a[1..] + b;
    }
  }

  lemma {:induction false} WorkerStaysAll(s: State, steps: seq<Step>, token: nat)
    requires Inv(s) && token in s.workers && s.workers[token].stage.Cleared? && Spares(steps, token)
    ensures token in Continue(s, steps).workers && Continue(s, steps).workers[token] == s.workers[token]
    decreases |steps|
  {
    hide Inv, Next;
    if steps != [] {
      PositionInOrder(s, token);
      WorkerStays(s, steps[0], token);
      StepKeepsInv(s, steps[0]);
      WorkerStaysAll(Next(s, steps[0]), steps[1..], token);
    }
  }

  /** A worker sends its request although its run has a result. */
  ghost predicate SendsLate(s: State, token: nat) {
    && token in s.workers && s.workers[token].stage.Cleared? && HasResult(s, s.workers[token].index)
    && Next(s, Send(token)).sends == s.sends + [s.workers[token].stage.row]
  }

  lemma LateRun(steps: seq<Step>, token: nat)
    requires token in Run(steps).workers && Run(steps).workers[token].stage.Cleared? && MayBeLate(Run(steps), token)
    ensures exists more :: SendsLate(Run(steps + more), token)
  {
    hide Inv, Next, Continue, SendsLate, Spares, HasResult;
    var s := Run(steps);
    RunKeepsInv(steps);
    var more :| Spares(more, token) && HasResult(Continue(s, more), s.workers[token].index);
    ContinueAppend(INITIAL, steps, more);
    WorkerStaysAll(s, more, token);
    ClearedSends(Run(steps + more), token);
  }

  /** Some run ends with such a request: the first worker is cleared and then stalls. */
  lemma StalledWorkerSendsLate()
    ensures exists steps, token :: SendsLate(Run(steps), token)
  {
    hide MayBeLate, Continue, Run, Next, SendsLate, HasResult;
    var steps, s := FirstWorkerCleared();
    assert NoFallback(s, 0);
    LateSendIff(steps, 1);
    LateRun(steps, 1);
    var more :| SendsLate(Run(steps + more), 1);
  }

  lemma ClearedSends(s: State, token: nat)
    requires token in s.workers && s.workers[token].stage.Cleared? && HasResult(s, s.workers[token].index)
    ensures SendsLate(s, token)
  {
  }

  lemma FirstWorkerCleared() returns (steps: seq<Step>, s: State)
    ensures s == Run(steps)
    ensures s == State([Entry(Primary, 0, Uncertain)], 1, true, Open, 0, 0, true, map[1 := Worker(0, Cleared(0, map[], 0))], [], {})
  {
    steps := [Step.Claim, Read(1), Decide(1, true), Beat(1)];
    var a := Next(INITIAL, Step.Claim);
    var b := Next(a, Read(1));
    var c := Next(b, Decide(1, true));
    assert c == State([Entry(Primary, 0, Uncertain)], 1, true, Open, 0, 0, true, map[1 := Worker(0, Marked(0, map[], 0))], [], {});
    s := Next(c, Beat(1));
    assert steps[1..] == [Read(1), Decide(1, true), Beat(1)];
    assert steps[1..][1..] == [Decide(1, true), Beat(1)];
    assert steps[1..][1..][1..] == [Beat(1)];
    assert Continue(s, []) == s;
    assert Continue(c, [Beat(1)]) == s;
    assert Continue(b, [Decide(1, true), Beat(1)]) == s;
    assert Continue(a, [Read(1), Decide(1, true), Beat(1)]) == s;
  }

  /** The fallback is sent only in a run whose primary was refused quota or tried without a result,
      and never beside a completed primary. */
  lemma FallbackOnlyAfterPrimary(steps: seq<Step>, a: nat)
    requires a < |Run(steps).sends| && Run(steps).sends[a] < |Run(steps).ledger|
    requires Run(steps).ledger[Run(steps).sends[a]].model == Fallback
    ensures DoneWithPrimary(Run(steps), Run(steps).ledger[Run(steps).sends[a]].index)
  {
    RunKeepsInv(steps);
    assert Run(steps).ledger[Run(steps).sends[a]] in Run(steps).ledger;
  }
}
