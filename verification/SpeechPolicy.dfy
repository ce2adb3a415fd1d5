/** The production speech fallback over the reservation ledger, the framework-neutral reference
    policy, and when the two agree. */
module SpeechPolicy {
  import opened Wrappers
  import opened SpeechLedger
  import opened SpeechRecovery

  /** Stable public reasons of an unavailable transcription. */
  datatype Reason =
    | ReasonQuota | ReasonOutage | ReasonUnknownOutcome | ReasonModelUnavailable | ReasonInvalidResponse
    | ReasonOffline | ReasonMissingAudio | ReasonTooLarge

  /** How a transcription ends: with the segments of one model, or unavailable for a reason. */
  datatype End = Transcribed(model: string, segments: seq<string>) | NotAvailable(reason: Reason)

  // ----- Production -----

  /** One run of a speech job: its retry index, the seconds of audio, the time read when each model
      is reserved, and whether the job already carries the identifier of a request. */
  datatype Request = Request(job: nat, index: nat, duration: nat, clock: string -> int, recorded: bool)

  function FailureReason(outcome: Outcome): Reason {
    match outcome
    case Uncertain => ReasonUnknownOutcome
    case Failed(QuotaExhausted) => ReasonQuota
    case Failed(RateLimited) => ReasonQuota
    case Failed(UnknownOutcome) => ReasonUnknownOutcome
    case Failed(Offline) => ReasonOffline
    case Failed(InvalidResponse) => ReasonInvalidResponse
    case Failed(MissingAudio) => ReasonMissingAudio
    case Failed(ChunkTooLarge) => ReasonTooLarge
    case Failed(ModelUnavailable) => ReasonModelUnavailable
    case _ => ReasonOutage
  }

  /** The newest row per model of one run, from rows in the order of their creation times. */
  function Newest(rows: seq<Row>, request: Request): map<string, Row> {
    if rows == [] then map[]
    else
      var row, before := rows[|rows| - 1], Newest(rows[..|rows| - 1], request);
      if row.job == request.job && row.retryIndex == request.index then before[row.model := row] else before
  }

  /** What a worker reads from the ledger when it starts the run. */
  function Attempts(rows: seq<Row>, request: Request): map<string, Row> {
    Newest(ByTime(rows), request)
  }

  /** The job carries the identifier of a request that the ledger does not know. */
  predicate Unrecorded(rows: seq<Row>, request: Request) {
    request.recorded && forall row :: row in rows ==> row.job != request.job
  }

  // ----- Who may be sent -----

  predicate IsReservation(row: Row, request: Request, model: string) {
    row.job == request.job && row.model == model && row.retryIndex == request.index && row.outcome == Reserved
  }

  /** The first reservation an owner retry left for a model of this run. */
  function FirstReservation(rows: seq<Row>, request: Request, model: string): (r: Option<nat>)
    ensures r.Some? ==> r.value < |rows| && IsReservation(rows[r.value], request, model)
    ensures r.Some? ==> forall k :: 0 <= k < r.value ==> !IsReservation(rows[k], request, model)
    ensures r.None? ==> forall k :: 0 <= k < |rows| ==> !IsReservation(rows[k], request, model)
  {
    if rows == [] then None
    else
      var before := FirstReservation(rows[..|rows| - 1], request, model);
      if before.Some? then before
      else if IsReservation(rows[|rows| - 1], request, model) then Some(|rows| - 1)
      else None
  }

  /** Every window has room for one more request of this model at its turn. */
  predicate Room(rows: seq<Row>, settings: Settings, request: Request, model: string) {
    forall w :: w in Windows(settings) ==>
      HasRoom(rows, settings.account, w, model, request.clock(model), BillableSeconds(settings, request.duration))
  }

  /** A model may be sent, or its quota is full, or its reservation is of another account. */
  datatype Admission = Admitted | Full | Foreign

  function Admits(rows: seq<Row>, settings: Settings, request: Request, model: string): (r: Admission)
    ensures r == Full <==> !Room(rows, settings, request, model) && forall row :: row in rows ==> !IsReservation(row, request, model)
    ensures r == Foreign ==> exists row :: row in rows && IsReservation(row, request, model) && row.account != settings.account
    ensures r == Admitted ==>
              || (exists row :: row in rows && IsReservation(row, request, model) && row.account == settings.account)
              || Room(rows, settings, request, model)
  {
    match FirstReservation(rows, request, model)
    case Some(k) => assert rows[k] in rows; if rows[k].account == settings.account then Admitted else Foreign
    case None => if Room(rows, settings, request, model) then Admitted else Full
  }

  function NewRow(settings: Settings, request: Request, model: string): Row {
    Row(request.job, settings.account, model, BillableSeconds(settings, request.duration), request.clock(model),
        Uncertain, request.index, None, None)
  }

  /** The ledger while the request of an admitted model is out, and the place of its row. */
  function Marked(rows: seq<Row>, settings: Settings, request: Request, model: string): seq<Row> {
    match FirstReservation(rows, request, model)
    case Some(k) => rows[k := rows[k].(outcome := Uncertain)]
    case None => rows + [NewRow(settings, request, model)]
  }

  function PlaceOf(rows: seq<Row>, request: Request, model: string): nat {
    match FirstReservation(rows, request, model)
    case Some(k) => k
    case None => |rows|
  }

  /** The ledger once its end is recorded. */
  function Sent(rows: seq<Row>, settings: Settings, request: Request, model: string, e: Ending): (after: seq<Row>)
    ensures |rows| <= |after| && PlaceOf(rows, request, model) < |after|
    ensures forall k :: 0 <= k < |rows| && k != PlaceOf(rows, request, model) ==> after[k] == rows[k]
    ensures var row := after[PlaceOf(rows, request, model)];
            row.job == request.job && row.model == model && row.retryIndex == request.index
            && row == EndedRow(settings, row, e)
  {
    var marked, k := Marked(rows, settings, request, model), PlaceOf(rows, request, model);
    marked[k := EndedRow(settings, marked[k], e)]
  }

  function AllSent(rows: seq<Row>, settings: Settings, request: Request, calls: seq<string>, endings: string -> Ending): seq<Row> {
    if calls == [] then rows
    else
      var n := |calls| - 1;
      Sent(AllSent(rows, settings, request, calls[..n], endings), settings, request, calls[n], endings(calls[n]))
  }

  // ----- The order of the models -----

  datatype Trace = Trace(calls: seq<string>, end: End)

  /** The model loop after some of its iterations: still going, with the requests sent and the
      reasons collected so far, or ended. */
  datatype Progress = Going(calls: seq<string>, reasons: seq<Reason>) | Ended(trace: Trace)

  /** The turn of model p, in a run that started from these rows. */
  function TakeTurn(rows: seq<Row>, settings: Settings, request: Request, order: seq<string>, p: nat,
                    endings: string -> Ending, calls: seq<string>, reasons: seq<Reason>): Progress
    requires p < |order|
  {
    var view, model := Attempts(rows, request), order[p];
    if model !in view && (exists k :: p < k < |order| && order[k] in view) then Going(calls, reasons + [ReasonQuota])
    else if model in view && view[model].outcome != Reserved then
      Going(calls, reasons + [FailureReason(view[model].outcome)])
    else
      match Admits(rows, settings, request, model)
      case Full => Going(calls, reasons + [ReasonQuota])
      case Foreign => Ended(Trace(calls, NotAvailable(ReasonOutage)))
      case Admitted =>
        match endings(model)
        case Heard(segments) => Ended(Trace(calls + [model], Transcribed(model, segments)))
        case e => Going(calls + [model], reasons + [FailureReason(OutcomeOf(settings, e))])
  }

  function Turn(rows: seq<Row>, settings: Settings, request: Request, order: seq<string>, p: nat,
                endings: string -> Ending): Progress
    requires p <= |order|
  {
    if p == 0 then Going([], [])
    else
      match Turn(rows, settings, request, order, p - 1, endings)
      case Ended(trace) => Ended(trace)
      case Going(calls, reasons) => TakeTurn(rows, settings, request, order, p - 1, endings, calls, reasons)
  }

  /** The whole production run of a nonempty model order, from the ledger as it was at its start. */
  function Production(rows: seq<Row>, settings: Settings, request: Request, order: seq<string>,
                      endings: string -> Ending): Trace
  {
    match Turn(rows, settings, request, order, |order|, endings)
    case Ended(trace) => trace
    case Going(calls, reasons) =>
      Trace(calls, NotAvailable(if reasons == [] then ReasonOutage else reasons[|reasons| - 1]))
  }

  lemma NoTurn(rows: seq<Row>, settings: Settings, request: Request, order: seq<string>, endings: string -> Ending)
    ensures Turn(rows, settings, request, order, 0, endings) == Going([], [])
    ensures AllSent(rows, settings, request, [], endings) == rows
  {
  }

  lemma NextTurn(rows: seq<Row>, settings: Settings, request: Request, order: seq<string>, p: nat,
                 endings: string -> Ending, calls: seq<string>, reasons: seq<Reason>)
    requires p < |order| && Turn(rows, settings, request, order, p, endings) == Going(calls, reasons)
    ensures Turn(rows, settings, request, order, p + 1, endings)
         == TakeTurn(rows, settings, request, order, p, endings, calls, reasons)
  {
  }

  lemma {:induction false} EndsAt(rows: seq<Row>, settings: Settings, request: Request, order: seq<string>, p: nat, q: nat,
                                  endings: string -> Ending)
    requires p <= q <= |order| && Turn(rows, settings, request, order, p, endings).Ended?
    ensures Turn(rows, settings, request, order, q, endings) == Turn(rows, settings, request, order, p, endings)
    decreases q
  {
    if p < q { EndsAt(rows, settings, request, order, p, q - 1, endings); }
  }

  // ----- One request does not touch the admission of another model -----

  lemma SentKeepsRoom(rows: seq<Row>, settings: Settings, request: Request, model: string, e: Ending, other: string)
    requires other != model
    ensures Room(Sent(rows, settings, request, model, e), settings, request, other) <==> Room(rows, settings, request, other)
  {
    hide HasRoom, EndedRow;
    var after, k := Sent(rows, settings, request, model, e), PlaceOf(rows, request, model);
    forall w | w in Windows(settings)
      ensures HasRoom(after, settings.account, w, other, request.clock(other), BillableSeconds(settings, request.duration))
         <==> HasRoom(rows, settings.account, w, other, request.clock(other), BillableSeconds(settings, request.duration))
    {
      SentKeepsUse(rows, settings, request, model, e, other, request.clock(other) - w.span, w.audio);
      SameUseSameRoom(rows, after, settings, w, other, request.clock(other), BillableSeconds(settings, request.duration));
    }
  }

  lemma SameUseSameRoom(rows: seq<Row>, after: seq<Row>, settings: Settings, w: Window, model: string, at: int, seconds: nat)
    requires Usage(rows, settings.account, model, at - w.span, w.audio) == Usage(after, settings.account, model, at - w.span, w.audio)
    ensures HasRoom(after, settings.account, w, model, at, seconds) <==> HasRoom(rows, settings.account, w, model, at, seconds)
  {
  }

  lemma SentKeepsUse(rows: seq<Row>, settings: Settings, request: Request, model: string, e: Ending, other: string,
                     since: int, audio: bool)
    requires other != model
    ensures Usage(Sent(rows, settings, request, model, e), settings.account, other, since, audio)
         == Usage(rows, settings.account, other, since, audio)
  {
    var k := PlaceOf(rows, request, model);
    var after := Sent(rows, settings, request, model, e);
    if k < |rows| {
      ReportKeepsUsage(rows, k, after[k], settings.account, other, since, since, audio);
      assert after == rows[k := after[k]];
    } else {
      assert after[..|rows|] == rows && |after| == |rows| + 1;
    }
  }

  lemma SentKeepsAdmission(rows: seq<Row>, settings: Settings, request: Request, model: string, e: Ending, other: string)
    requires other != model
    ensures Admits(Sent(rows, settings, request, model, e), settings, request, other) == Admits(rows, settings, request, other)
  {
    hide Room, Sent, FirstReservation, PlaceOf;
    SentKeepsRoom(rows, settings, request, model, e, other);
    var after, k := Sent(rows, settings, request, model, e), PlaceOf(rows, request, model);
    SentLength(rows, settings, request, model, e);
    PlaceIsOfModel(rows, request, model);
    SameFirst(rows, after, request, other);
  }

  lemma SameFirst(rows: seq<Row>, after: seq<Row>, request: Request, model: string)
    requires |rows| <= |after|
    requires forall k :: 0 <= k < |rows| ==> after[k] == rows[k] || (rows[k].model != model && after[k].model != model)
    requires forall k :: |rows| <= k < |after| ==> after[k].model != model
    ensures FirstReservation(after, request, model) == FirstReservation(rows, request, model)
  {
    var a, b := FirstReservation(rows, request, model), FirstReservation(after, request, model);
    if a.Some? {
      assert IsReservation(after[a.value], request, model);
    }
    if b.Some? {
      assert IsReservation(rows[b.value], request, model);
    }
  }

  lemma SentLength(rows: seq<Row>, settings: Settings, request: Request, model: string, e: Ending)
    ensures |Sent(rows, settings, request, model, e)| <= |rows| + 1
    ensures |Sent(rows, settings, request, model, e)| == |rows| + 1 <==> PlaceOf(rows, request, model) == |rows|
  {
  }

  lemma PlaceIsOfModel(rows: seq<Row>, request: Request, model: string)
    ensures PlaceOf(rows, request, model) < |rows| ==> rows[PlaceOf(rows, request, model)].model == model
  {
  }

  // ----- The run, said model by model -----

  /** This run has a row of the model that was sent, or that may have been. */
  predicate WasSent(rows: seq<Row>, request: Request, model: string) {
    var view := Attempts(rows, request);
    model in view && view[model].outcome != Reserved
  }

  /** This run has no row of the model but one of a later model. */
  predicate MovedPast(rows: seq<Row>, request: Request, order: seq<string>, p: nat)
    requires p < |order|
  {
    var view := Attempts(rows, request);
    order[p] !in view && exists k :: p < k < |order| && order[k] in view
  }

  /** The run tries to send this model, if it gets there. */
  predicate Due(rows: seq<Row>, request: Request, order: seq<string>, p: nat)
    requires p < |order|
  {
    !WasSent(rows, request, order[p]) && !MovedPast(rows, request, order, p)
  }

  /** The run goes no further than this model: its reservation is of another account, or it answers. */
  predicate Stops(rows: seq<Row>, settings: Settings, request: Request, order: seq<string>, endings: string -> Ending, p: nat)
    requires p < |order|
  {
    && Due(rows, request, order, p)
    && match Admits(rows, settings, request, order[p])
       case Full => false
       case Foreign => true
       case Admitted => endings(order[p]).Heard?
  }

  ghost predicate Reached(rows: seq<Row>, settings: Settings, request: Request, order: seq<string>, endings: string -> Ending, p: nat)
    requires p <= |order|
  {
    forall q :: 0 <= q < p ==> !Stops(rows, settings, request, order, endings, q)
  }

  ghost predicate Called(rows: seq<Row>, settings: Settings, request: Request, order: seq<string>, endings: string -> Ending, p: nat)
    requires p < |order|
  {
    && Due(rows, request, order, p) && Admits(rows, settings, request, order[p]) == Admitted
    && Reached(rows, settings, request, order, endings, p)
  }

  /** Why a model that does not stop the run gave no answer. */
  function ReasonAt(rows: seq<Row>, settings: Settings, request: Request, order: seq<string>, endings: string -> Ending, p: nat): Reason
    requires p < |order|
  {
    if WasSent(rows, request, order[p]) then FailureReason(Attempts(rows, request)[order[p]].outcome)
    else if MovedPast(rows, request, order, p) || Admits(rows, settings, request, order[p]) == Full then ReasonQuota
    else FailureReason(OutcomeOf(settings, endings(order[p])))
  }

  /** Of the first p models exactly those called, in the order of the models. */
  ghost predicate CallsAre(rows: seq<Row>, settings: Settings, request: Request, order: seq<string>, endings: string -> Ending,
                           p: nat, calls: seq<string>)
  {
    && InOrder(calls, order)
    && forall q :: 0 <= q < |order| ==>
         (order[q] in calls <==> q < p && Called(rows, settings, request, order, endings, q))
  }

  ghost predicate InOrder(calls: seq<string>, order: seq<string>) {
    && (forall m :: m in calls ==> m in order)
    && forall a, b, p, q :: 0 <= a < b < |calls| && 0 <= p < |order| && 0 <= q < |order| ==>
         calls[a] == order[p] && calls[b] == order[q] ==> p < q
  }

  /** The end the run comes to at model p. */
  ghost predicate EndsAtModel(rows: seq<Row>, settings: Settings, request: Request, order: seq<string>, endings: string -> Ending,
                              p: nat, end: End)
    requires p < |order|
  {
    && Reached(rows, settings, request, order, endings, p) && Stops(rows, settings, request, order, endings, p)
    && end == match endings(order[p])
              case Heard(segments) =>
                if Admits(rows, settings, request, order[p]) == Admitted then Transcribed(order[p], segments)
                else NotAvailable(ReasonOutage)
              case _ => NotAvailable(ReasonOutage)
  }

  /** A run without a stored result: the models called are exactly those that this run has not sent or
      moved past, that are admitted, and before which nothing stopped it; it ends with the first
      answer, as unavailable at a reservation of another account, or for the reason of the last model. */
  ghost predicate RunsThrough(rows: seq<Row>, settings: Settings, request: Request, order: seq<string>, endings: string -> Ending,
                              trace: Trace)
  {
    && CallsAre(rows, settings, request, order, endings, |order|, trace.calls)
    && if Reached(rows, settings, request, order, endings, |order|)
       then trace.end == NotAvailable(if order == [] then ReasonOutage
                                      else ReasonAt(rows, settings, request, order, endings, |order| - 1))
       else exists p :: 0 <= p < |order| && EndsAtModel(rows, settings, request, order, endings, p, trace.end)
  }

  lemma NextCalls(rows: seq<Row>, settings: Settings, request: Request, order: seq<string>, endings: string -> Ending,
                  p: nat, calls: seq<string>)
    requires p < |order| && AllDistinct(order) && CallsAre(rows, settings, request, order, endings, p, calls)
    ensures var called := Called(rows, settings, request, order, endings, p);
            CallsAre(rows, settings, request, order, endings, p + 1, if called then calls + [order[p]] else calls)
  {
    hide Called;
    if Called(rows, settings, request, order, endings, p) {
      assert forall m :: m in calls + [order[p]] <==> m in calls || m == order[p];
      assert order[p] in order;
    }
  }

  lemma NoCallsBehind(rows: seq<Row>, settings: Settings, request: Request, order: seq<string>, endings: string -> Ending,
                      p: nat, calls: seq<string>)
    requires p < |order| && Stops(rows, settings, request, order, endings, p)
    requires CallsAre(rows, settings, request, order, endings, p + 1, calls)
    ensures CallsAre(rows, settings, request, order, endings, |order|, calls)
    ensures !Reached(rows, settings, request, order, endings, |order|)
  {
    hide Stops, InOrder, Due;
  }

  /** What one turn adds to a run that has come to model p. */
  lemma TurnAdds(rows: seq<Row>, settings: Settings, request: Request, order: seq<string>, endings: string -> Ending, p: nat,
                 calls: seq<string>, reasons: seq<Reason>)
    requires p < |order| && Reached(rows, settings, request, order, endings, p)
    ensures var called := Called(rows, settings, request, order, endings, p);
            var calls' := if called then calls + [order[p]] else calls;
            match TakeTurn(rows, settings, request, order, p, endings, calls, reasons)
            case Going(after, why) =>
              && !Stops(rows, settings, request, order, endings, p) && after == calls'
              && why == reasons + [ReasonAt(rows, settings, request, order, endings, p)]
            case Ended(trace) =>
              trace.calls == calls' && EndsAtModel(rows, settings, request, order, endings, p, trace.end)
  {
    hide Attempts, FailureReason, OutcomeOf, Reached;
  }

  /** What is known when the loop has dealt with the first p models. */
  ghost predicate CameTo(rows: seq<Row>, settings: Settings, request: Request, order: seq<string>, endings: string -> Ending,
                         p: nat, progress: Progress)
    requires p <= |order|
  {
    match progress
    case Going(calls, reasons) =>
      && Reached(rows, settings, request, order, endings, p)
      && CallsAre(rows, settings, request, order, endings, p, calls)
      && |reasons| == p && (p > 0 ==> reasons[p - 1] == ReasonAt(rows, settings, request, order, endings, p - 1))
    case Ended(trace) =>
      && CallsAre(rows, settings, request, order, endings, |order|, trace.calls)
      && !Reached(rows, settings, request, order, endings, |order|)
      && exists q :: 0 <= q < |order| && EndsAtModel(rows, settings, request, order, endings, q, trace.end)
  }

  lemma CameToNext(rows: seq<Row>, settings: Settings, request: Request, order: seq<string>, endings: string -> Ending, p: nat,
                   calls: seq<string>, reasons: seq<Reason>)
    requires p < |order| && AllDistinct(order) && CameTo(rows, settings, request, order, endings, p, Going(calls, reasons))
    ensures CameTo(rows, settings, request, order, endings, p + 1,
                   TakeTurn(rows, settings, request, order, p, endings, calls, reasons))
  {
    hide TakeTurn, Stops, Called, ReasonAt, Due, CallsAre, EndsAtModel, Admits, Attempts;
    TurnAdds(rows, settings, request, order, endings, p, calls, reasons);
    NextCalls(rows, settings, request, order, endings, p, calls);
    var progress := TakeTurn(rows, settings, request, order, p, endings, calls, reasons);
    if progress.Ended? {
      StoppedThere(rows, settings, request, order, endings, p, progress.trace.end);
      NoCallsBehind(rows, settings, request, order, endings, p, progress.trace.calls);
    }
  }

  lemma StoppedThere(rows: seq<Row>, settings: Settings, request: Request, order: seq<string>, endings: string -> Ending, p: nat,
                     end: End)
    requires p < |order| && EndsAtModel(rows, settings, request, order, endings, p, end)
    ensures Stops(rows, settings, request, order, endings, p)
  {
  }

  lemma ComesFromNothing(rows: seq<Row>, settings: Settings, request: Request, order: seq<string>, endings: string -> Ending)
    ensures CameTo(rows, settings, request, order, endings, 0, Going([], []))
  {
    hide Stops, Called, ReasonAt;
  }

  lemma {:induction false} TurnsComeTo(rows: seq<Row>, settings: Settings, request: Request, order: seq<string>,
                                       endings: string -> Ending, p: nat)
    requires p <= |order| && AllDistinct(order)
    ensures CameTo(rows, settings, request, order, endings, p, Turn(rows, settings, request, order, p, endings))
  {
    hide TakeTurn, Stops, Called, ReasonAt, Due, CallsAre, Reached, EndsAtModel, Admits, Attempts;
    if p == 0 {
      NoTurn(rows, settings, request, order, endings);
      ComesFromNothing(rows, settings, request, order, endings);
    } else {
      TurnsComeTo(rows, settings, request, order, endings, p - 1);
      match Turn(rows, settings, request, order, p - 1, endings)
      case Ended(_) => EndsAt(rows, settings, request, order, p - 1, p, endings);
      case Going(calls, reasons) =>
        NextTurn(rows, settings, request, order, p - 1, endings, calls, reasons);
        CameToNext(rows, settings, request, order, endings, p - 1, calls, reasons);
    }
  }

  /** The model loop does just that. */
  lemma ProductionRunsThrough(rows: seq<Row>, settings: Settings, request: Request, order: seq<string>, endings: string -> Ending)
    requires AllDistinct(order)
    ensures RunsThrough(rows, settings, request, order, endings, Production(rows, settings, request, order, endings))
  {
    hide Turn, CallsAre, Reached, ReasonAt, EndsAtModel;
    TurnsComeTo(rows, settings, request, order, endings, |order|);
  }

  /** A primary whose quota is full does not end a fresh run: the fallback is called if it has room, and
      the run ends as the fallback does. */
  lemma FullPrimaryGoesToFallback(rows: seq<Row>, settings: Settings, request: Request, primary: string, fallback: string,
                                  endings: string -> Ending, trace: Trace)
    requires primary != fallback && RunsThrough(rows, settings, request, [primary, fallback], endings, trace)
    requires forall row :: row in rows ==> row.job != request.job || row.retryIndex != request.index
    requires !Room(rows, settings, request, primary)
    ensures trace.calls == if Room(rows, settings, request, fallback) then [fallback] else []
    ensures trace.end == if !Room(rows, settings, request, fallback) then NotAvailable(ReasonQuota)
                         else match endings(fallback)
                              case Heard(segments) => Transcribed(fallback, segments)
                              case e => NotAvailable(FailureReason(OutcomeOf(settings, e)))
  {
    hide Room, FailureReason, OutcomeOf, Attempts, Admits;
    var order := [primary, fallback];
    AttemptsAreNewest(rows, request, primary);
    AttemptsAreNewest(rows, request, fallback);
    assert Admits(rows, settings, request, primary) == Full;
    assert Admits(rows, settings, request, fallback) == if Room(rows, settings, request, fallback) then Admitted else Full;
    assert !Stops(rows, settings, request, order, endings, 0);
    CallsDiffer(trace.calls, order);
    assert order[0] == primary && order[1] == fallback;
    if Room(rows, settings, request, fallback) {
      OneCall(trace.calls, fallback);
      assert Due(rows, request, order, 1);
      assert Stops(rows, settings, request, order, endings, 1) <==> endings(fallback).Heard?;
      assert endings(fallback).Heard? ==> !Reached(rows, settings, request, order, endings, 2);
    } else {
      NoCall(trace.calls);
    }
  }

  lemma CallsDiffer(calls: seq<string>, order: seq<string>)
    requires InOrder(calls, order)
    ensures AllDistinct(calls)
  {
    forall a, b | 0 <= a < b < |calls| ensures calls[a] != calls[b] {
      assert calls[a] in order;
      var p :| 0 <= p < |order| && order[p] == calls[a];
    }
  }

  lemma NoCall(calls: seq<string>)
    ensures calls == [] <==> forall x :: x !in calls
  {
    if calls != [] { assert calls[0] in calls; }
  }

  lemma FirstTwo(calls: seq<string>)
    requires AllDistinct(calls) && |calls| > 1
    ensures exists x, y :: x in calls && y in calls && x != y
  {
    assert calls[0] in calls && calls[1] in calls;
  }

  /** Calls of one model are one call. */
  lemma OneCall(calls: seq<string>, model: string)
    requires AllDistinct(calls) && forall x :: x in calls <==> x == model
    ensures calls == [model]
  {
    assert model in calls;
    if |calls| > 1 { FirstTwo(calls); }
  }

  predicate OfRun(row: Row, request: Request, model: string) {
    row.job == request.job && row.retryIndex == request.index && row.model == model
  }

  /** The view of a model is this run's newest row of it; a model without a row is not in the view. */
  ghost predicate HoldsNewest(view: map<string, Row>, rows: seq<Row>, request: Request, model: string) {
    && (model in view ==>
          && view[model] in rows && OfRun(view[model], request, model)
          && forall row :: row in rows && OfRun(row, request, model) ==> row.createdAt <= view[model].createdAt)
    && (model !in view ==> forall row :: row in rows ==> !OfRun(row, request, model))
  }

  lemma AddNewest(view: map<string, Row>, rows: seq<Row>, row: Row, request: Request, model: string)
    requires HoldsNewest(view, rows, request, model) && forall x :: x in rows ==> x.createdAt <= row.createdAt
    ensures HoldsNewest(if row.job == request.job && row.retryIndex == request.index then view[row.model := row] else view,
                        rows + [row], request, model)
  {
  }

  lemma {:induction false} NewestHolds(rows: seq<Row>, request: Request, model: string)
    requires Oldest(rows)
    ensures HoldsNewest(Newest(rows, request), rows, request, model)
  {
    hide HoldsNewest;
    if rows != [] {
      var row, before := rows[|rows| - 1], rows[..|rows| - 1];
      assert rows == before + [row];
      forall x | x in before ensures x.createdAt <= row.createdAt {
        var k :| 0 <= k < |before| && before[k] == x;
        assert rows[k] == x;
      }
      NewestHolds(before, request, model);
      AddNewest(Newest(before, request), before, row, request, model);
    } else {
      NoneNewest(request, model);
    }
  }

  lemma NoneNewest(request: Request, model: string)
    ensures HoldsNewest(map[], [], request, model)
  {
  }

  /** What the worker reads when it starts the run. */
  lemma AttemptsAreNewest(rows: seq<Row>, request: Request, model: string)
    ensures HoldsNewest(Attempts(rows, request), rows, request, model)
  {
    hide Newest, ByTime;
    ByTimeOrders(rows);
    NewestHolds(ByTime(rows), request, model);
  }

  // ----- The methods -----

  /** Claim the reservation an owner retry left for this run and model, or reserve now; either way
      the row says "uncertain" before the request. */
  method Begin(ledger: Ledger, request: Request, model: string) returns (result: Result<nat, Failure>)
    requires ledger.Valid()
    modifies ledger
    ensures ledger.Valid()
    ensures match Admits(old(ledger.rows), ledger.settings, request, model)
            case Full => result == Failure(QuotaExhausted) && ledger.rows == old(ledger.rows)
            case Foreign => result == Failure(Unavailable) && ledger.rows == old(ledger.rows)
            case Admitted =>
              && result == Success(PlaceOf(old(ledger.rows), request, model))
              && ledger.rows == Marked(old(ledger.rows), ledger.settings, request, model)
  {
    hide Capped, HasRoom, ShortWaits;
    for k := 0 to |ledger.rows|
      invariant ledger.rows == old(ledger.rows)
      invariant forall j :: 0 <= j < k ==> !IsReservation(ledger.rows[j], request, model)
    {
      if IsReservation(ledger.rows[k], request, model) {
        assert FirstReservation(ledger.rows, request, model) == Some(k);
        if ledger.rows[k].account != ledger.settings.account {
          return Failure(Unavailable);
        }
        ledger.Mark(k);
        return Success(k);
      }
    }
    assert FirstReservation(ledger.rows, request, model).None?;
    result := ledger.ReserveIn(request.job, model, request.duration, request.index, request.clock(model), Uncertain);
  }

  /** One request of a model: mark, send, record. A model that is not admitted is not sent. */
  method SendTo(ledger: Ledger, request: Request, model: string, endings: string -> Ending)
    returns (result: Result<Ending, Failure>)
    requires ledger.Valid()
    modifies ledger
    ensures ledger.Valid()
    ensures match Admits(old(ledger.rows), ledger.settings, request, model)
            case Full => result == Failure(QuotaExhausted) && ledger.rows == old(ledger.rows)
            case Foreign => result == Failure(Unavailable) && ledger.rows == old(ledger.rows)
            case Admitted =>
              && result == Success(endings(model))
              && ledger.rows == Sent(old(ledger.rows), ledger.settings, request, model, endings(model))
  {
    hide Capped, HasRoom, ShortWaits, Admits;
    var begun := Begin(ledger, request, model);
    if begun.Failure? {
      return Failure(begun.error);
    }
    var e := endings(model);
    ledger.Report(begun.value, e);
    return Success(e);
  }

  /** The end a stored result stands for. */
  function Stored(model: string, row: Row): End {
    Transcribed(model, match row.result case Some(segments) => segments case None => [])
  }

  predicate AllDistinct(order: seq<string>) {
    forall a, b :: 0 <= a < b < |order| ==> order[a] != order[b]
  }

  /** One production run without a crash. A completed row answers it without any request, and so does
      a request the ledger does not know; otherwise the models take their turns, and the ledger gains
      the record of every request sent and nothing else. */
  method Transcribe(ledger: Ledger, request: Request, order: seq<string>, endings: string -> Ending) returns (trace: Trace)
    requires ledger.Valid() && AllDistinct(order)
    modifies ledger
    ensures ledger.Valid()
    ensures var view := Attempts(old(ledger.rows), request);
            if Unrecorded(old(ledger.rows), request)
            then trace == Trace([], NotAvailable(ReasonUnknownOutcome))
            else if exists m :: m in view && view[m].outcome == Completed
            then trace.calls == [] && exists m :: m in view && view[m].outcome == Completed && trace.end == Stored(m, view[m])
            else
              && trace == Production(old(ledger.rows), ledger.settings, request, order, endings)
              && RunsThrough(old(ledger.rows), ledger.settings, request, order, endings, trace)
    ensures ledger.rows == AllSent(old(ledger.rows), ledger.settings, request, trace.calls, endings)
  {
    hide Capped, ShortWaits, HasRoom, Room, Attempts, Turn, FailureReason, Admits, Sent, RunsThrough;
    ghost var rows := ledger.rows;
    ProductionRunsThrough(rows, ledger.settings, request, order, endings);
    var settings := ledger.settings;
    var view := Attempts(ledger.rows, request);
    NoTurn(rows, settings, request, order, endings);
    if Unrecorded(ledger.rows, request) {
      return Trace([], NotAvailable(ReasonUnknownOutcome));
    }
    if m :| m in view && view[m].outcome == Completed {
      return Trace([], Stored(m, view[m]));
    }
    var calls: seq<string>, reasons: seq<Reason> := [], [];
    for p := 0 to |order|
      invariant ledger.Valid() && ledger.rows == AllSent(rows, settings, request, calls, endings)
      invariant Turn(rows, settings, request, order, p, endings) == Going(calls, reasons)
      invariant forall k :: p <= k < |order| ==>
                  Admits(ledger.rows, settings, request, order[k]) == Admits(rows, settings, request, order[k])
    {
      var model := order[p];
      NextTurn(rows, settings, request, order, p, endings, calls, reasons);
      if model !in view && exists k :: p < k < |order| && order[k] in view {
        reasons := reasons + [ReasonQuota];
      } else if model in view && view[model].outcome != Reserved {
        reasons := reasons + [FailureReason(view[model].outcome)];
      } else {
        ghost var before := ledger.rows;
        var result := SendTo(ledger, request, model, endings);
        if result == Failure(QuotaExhausted) {
          reasons := reasons + [ReasonQuota];
        } else if result.Failure? {
          EndsAt(rows, settings, request, order, p + 1, |order|, endings);
          return Trace(calls, NotAvailable(ReasonOutage));
        } else {
          assert (calls + [model])[..|calls|] == calls;
          calls := calls + [model];
          forall k | p < k < |order|
            ensures Admits(ledger.rows, settings, request, order[k]) == Admits(before, settings, request, order[k])
          {
            SentKeepsAdmission(before, settings, request, model, endings(model), order[k]);
          }
          if result.value.Heard? {
            EndsAt(rows, settings, request, order, p + 1, |order|, endings);
            return Trace(calls, Transcribed(model, result.value.segments));
          }
          reasons := reasons + [FailureReason(OutcomeOf(settings, result.value))];
        }
      }
    }
    return Trace(calls, NotAvailable(if reasons == [] then ReasonOutage else reasons[|reasons| - 1]));
  }

  // ----- The reference policy -----

  /** What a recognizer does with one request; the six failures are those the policy names. A rate
      limit comes with what the provider says about it. */
  datatype Reply = Recognized(segments: seq<string>) | Failing(kind: Kind, exhausted: bool, delay: Option<real>)

  datatype Kind = RateLimit | TransientError | UnknownEnd | NoConnection | NoModel | BadResponse

  /** How the production adapter reports the same reply. */
  function EndingOf(reply: Reply): Ending {
    match reply
    case Recognized(segments) => Heard(segments)
    case Failing(RateLimit, exhausted, delay) => TooMany(exhausted, delay)
    case Failing(TransientError, _, _) => Raised(Transient)
    case Failing(UnknownEnd, _, _) => Raised(UnknownOutcome)
    case Failing(NoConnection, _, _) => Raised(Offline)
    case Failing(NoModel, _, _) => Raised(ModelUnavailable)
    case Failing(BadResponse, _, _) => Raised(InvalidResponse)
  }

  function ReasonByKind(kind: Kind): Reason {
    match kind
    case RateLimit => ReasonQuota
    case TransientError => ReasonOutage
    case UnknownEnd => ReasonUnknownOutcome
    case NoConnection => ReasonOffline
    case NoModel => ReasonModelUnavailable
    case BadResponse => ReasonInvalidResponse
  }

  /** One entry of the attempt list. */
  datatype Attempt = Blocked(model: string) | Ok(model: string) | Refused(model: string, kind: Kind)

  /** The reason of an unavailable chunk, from its last attempt. */
  function LastReason(attempts: seq<Attempt>): Reason {
    if attempts == [] then ReasonUnknownOutcome
    else
      match attempts[|attempts| - 1]
      case Blocked(_) => ReasonUnknownOutcome
      case Ok(_) => ReasonUnknownOutcome
      case Refused(_, kind) => ReasonByKind(kind)
  }

  /** What the attempts at the first p recognizers are, as long as none of them answers. */
  function RefAttempts(order: seq<string>, p: nat, sent: set<string>, replies: string -> Reply): seq<Attempt>
    requires p <= |order|
  {
    if p == 0 then []
    else
      var model := order[p - 1];
      RefAttempts(order, p - 1, sent, replies)
      + [if model in sent then Blocked(model)
         else match replies(model) case Recognized(_) => Ok(model) case Failing(kind, _, _) => Refused(model, kind)]
  }

  function Calls(attempts: seq<Attempt>): seq<string> {
    if attempts == [] then []
    else
      var a := attempts[|attempts| - 1];
      Calls(attempts[..|attempts| - 1]) + (if a.Blocked? then [] else [a.model])
  }

  /** The attempts up to the first answer, or all of them, and the end they lead to. */
  ghost predicate ReferenceRun(order: seq<string>, sent: set<string>, replies: string -> Reply, end: End,
                               attempts: seq<Attempt>) {
    && |attempts| <= |order| && attempts == RefAttempts(order, |attempts|, sent, replies)
    && (forall k :: 0 <= k < |attempts| - 1 ==> !attempts[k].Ok?)
    && if attempts != [] && attempts[|attempts| - 1].Ok?
       then var model := attempts[|attempts| - 1].model;
            end == Transcribed(model, match replies(model) case Recognized(s) => s case _ => [])
       else |attempts| == |order| && end == NotAvailable(LastReason(attempts))
  }

  /** The reference transcription of one chunk with usable audio. `sent` is its ledger: the
      recognizers whose send succeeded or ended unknown for this chunk. */
  method TranscribeChunk(order: seq<string>, sent: set<string>, replies: string -> Reply)
    returns (end: End, attempts: seq<Attempt>, sent': set<string>)
    requires AllDistinct(order)
    ensures ReferenceRun(order, sent, replies, end, attempts)
    ensures forall m :: m in sent' <==> m in sent || Ok(m) in attempts || Refused(m, UnknownEnd) in attempts
  {
    attempts, sent' := [], sent;
    for p := 0 to |order|
      invariant attempts == RefAttempts(order, p, sent, replies) && |attempts| == p
      invariant forall k :: 0 <= k < p ==> !attempts[k].Ok? && attempts[k].model == order[k]
      invariant forall m :: m in sent' <==> m in sent || Ok(m) in attempts || Refused(m, UnknownEnd) in attempts
    {
      var model := order[p];
      if model in sent' {
        assert model in sent;
        attempts := attempts + [Blocked(model)];
      } else {
        match replies(model)
        case Recognized(segments) =>
          attempts := attempts + [Ok(model)];
          sent' := sent' + {model};
          return Transcribed(model, segments), attempts, sent';
        case Failing(kind, _, _) =>
          if kind == UnknownEnd { sent' := sent' + {model}; }
          attempts := attempts + [Refused(model, kind)];
      }
    }
    return NotAvailable(LastReason(attempts)), attempts, sent';
  }

  // ----- Agreement -----

  /** Two distinct models, and a ledger that marks exactly the sends of this run in `sent`, all of
      them interrupted or ended unknown. */
  ghost predicate SameMarks(rows: seq<Row>, request: Request, primary: string, fallback: string, sent: set<string>) {
    var view := Attempts(rows, request);
    && primary != fallback && (forall m :: m in view <==> m in sent)
    && (forall m :: m in view ==> view[m].outcome == Uncertain || view[m].outcome == Failed(UnknownOutcome))
  }

  /** No owner retry reserved this model for the run, and every window has room for its request. */
  ghost predicate Free(rows: seq<Row>, settings: Settings, request: Request, model: string) {
    Room(rows, settings, request, model) && forall row :: row in rows ==> !IsReservation(row, request, model)
  }

  lemma TwoAttempts(primary: string, fallback: string, sent: set<string>, replies: string -> Reply)
    ensures var order := [primary, fallback];
            var one, two := RefAttempts(order, 1, sent, replies), RefAttempts(order, 2, sent, replies);
            && |one| == 1 && two == one + [two[1]]
            && one == [if primary in sent then Blocked(primary)
                       else match replies(primary) case Recognized(_) => Ok(primary) case Failing(k, _, _) => Refused(primary, k)]
            && two[1] == (if fallback in sent then Blocked(fallback)
                          else match replies(fallback) case Recognized(_) => Ok(fallback) case Failing(k, _, _) => Refused(fallback, k))
            && Calls(one) == (if one[0].Blocked? then [] else [primary])
            && Calls(two) == Calls(one) + (if two[1].Blocked? then [] else [fallback])
  {
    var order := [primary, fallback];
    var one, two := RefAttempts(order, 1, sent, replies), RefAttempts(order, 2, sent, replies);
    assert RefAttempts(order, 0, sent, replies) == [] && one[..0] == [] && two[..1] == one;
    assert Calls([]) == [];
  }

  lemma TwoTurns(rows: seq<Row>, settings: Settings, request: Request, primary: string, fallback: string, endings: string -> Ending)
    ensures var order := [primary, fallback];
            var first := Turn(rows, settings, request, order, 1, endings);
            && first == TakeTurn(rows, settings, request, order, 0, endings, [], [])
            && Turn(rows, settings, request, order, 2, endings)
               == (if first.Ended? then first
                   else TakeTurn(rows, settings, request, order, 1, endings, first.calls, first.reasons))
            && (exists k :: 0 < k < |order| && order[k] in Attempts(rows, request)) == (fallback in Attempts(rows, request))
  {
    NoTurn(rows, settings, request, [primary, fallback], endings);
    assert [primary, fallback][1] == fallback;
  }

  lemma FreeIsAdmitted(rows: seq<Row>, settings: Settings, request: Request, model: string)
    requires Free(rows, settings, request, model)
    ensures Admits(rows, settings, request, model) == Admitted
  {
    hide Room;
    assert forall k :: 0 <= k < |rows| ==> !IsReservation(rows[k], request, model);
    assert FirstReservation(rows, request, model).None?;
  }

  /** What two recognizers come to: the first answer among those that are not marked, or the reason
      of the fallback. */
  function ExpectedTrace(primary: string, fallback: string, sent: set<string>, replies: string -> Reply): Trace {
    if primary !in sent && replies(primary).Recognized? then
      Trace([primary], Transcribed(primary, replies(primary).segments))
    else
      var calls := if primary in sent then [] else [primary];
      if fallback in sent then Trace(calls, NotAvailable(ReasonUnknownOutcome))
      else
        Trace(calls + [fallback],
              match replies(fallback)
              case Recognized(segments) => Transcribed(fallback, segments)
              case Failing(kind, _, _) => NotAvailable(ReasonByKind(kind)))
  }

  lemma ReferenceComesTo(primary: string, fallback: string, sent: set<string>, replies: string -> Reply,
                         end: End, attempts: seq<Attempt>)
    requires ReferenceRun([primary, fallback], sent, replies, end, attempts)
    ensures Trace(Calls(attempts), end) == ExpectedTrace(primary, fallback, sent, replies)
  {
    hide RefAttempts, Calls;
    TwoAttempts(primary, fallback, sent, replies);
    NoAttempt([primary, fallback], sent, replies);
    var order := [primary, fallback];
    var one, two := RefAttempts(order, 1, sent, replies), RefAttempts(order, 2, sent, replies);
    assert attempts == one || attempts == two;
    assert two[0] == one[0];
  }

  lemma FirstComesTo(rows: seq<Row>, settings: Settings, request: Request, primary: string, fallback: string,
                     sent: set<string>, replies: string -> Reply, endings: string -> Ending)
    requires SameMarks(rows, request, primary, fallback, sent)
    requires Admits(rows, settings, request, primary) == Admitted && endings(primary) == EndingOf(replies(primary))
    ensures Turn(rows, settings, request, [primary, fallback], 1, endings) ==
            if primary in sent then Going([], [ReasonUnknownOutcome])
            else if fallback in sent then Going([], [ReasonQuota])
            else match replies(primary)
                 case Recognized(segments) => Ended(Trace([primary], Transcribed(primary, segments)))
                 case Failing(kind, _, _) => Going([primary], [ReasonByKind(kind)])
  {
    hide Turn, Attempts, Admits;
    TwoTurns(rows, settings, request, primary, fallback, endings);
  }

  lemma ProductionComesTo(rows: seq<Row>, settings: Settings, request: Request, primary: string, fallback: string,
                          sent: set<string>, replies: string -> Reply, endings: string -> Ending)
    requires SameMarks(rows, request, primary, fallback, sent)
    requires Free(rows, settings, request, primary) && Free(rows, settings, request, fallback)
    requires forall m :: endings(m) == EndingOf(replies(m))
    ensures Production(rows, settings, request, [primary, fallback], endings) ==
            if fallback in sent && primary !in sent then Trace([], NotAvailable(ReasonUnknownOutcome))
            else ExpectedTrace(primary, fallback, sent, replies)
  {
    hide Turn, Free, Attempts, Admits;
    TwoTurns(rows, settings, request, primary, fallback, endings);
    FreeIsAdmitted(rows, settings, request, primary);
    FreeIsAdmitted(rows, settings, request, fallback);
    FirstComesTo(rows, settings, request, primary, fallback, sent, replies, endings);
  }

  /** When both models are free and the ledger marks some interrupted sends, the production run calls
      the same models in the same order and ends the same way as the reference policy, whatever the
      replies, unless the fallback is marked and the primary is not. Then the production run takes
      the primary's quota to have been full and calls nothing, and the reference calls the primary. */
  lemma AgreeUnlessOnlyFallbackMarked(rows: seq<Row>, settings: Settings, request: Request, primary: string, fallback: string,
                                      sent: set<string>, replies: string -> Reply, endings: string -> Ending,
                                      end: End, attempts: seq<Attempt>)
    requires SameMarks(rows, request, primary, fallback, sent)
    requires Free(rows, settings, request, primary) && Free(rows, settings, request, fallback)
    requires forall m :: endings(m) == EndingOf(replies(m))
    requires ReferenceRun([primary, fallback], sent, replies, end, attempts)
    ensures Production(rows, settings, request, [primary, fallback], endings) == Trace(Calls(attempts), end) <==>
            !(fallback in sent && primary !in sent)
  {
    hide SameMarks, Free, Production, ReferenceRun, Calls;
    ProductionComesTo(rows, settings, request, primary, fallback, sent, replies, endings);
    ReferenceComesTo(primary, fallback, sent, replies, end, attempts);
  }

  lemma NoAttempt(order: seq<string>, sent: set<string>, replies: string -> Reply)
    ensures RefAttempts(order, 0, sent, replies) == []
  {
  }

  /** The same chunk transcribed by the production run and by the reference policy. */
  method TranscribeBoth(ledger: Ledger, request: Request, primary: string, fallback: string, sent: set<string>,
                        replies: string -> Reply)
    returns (trace: Trace, end: End, attempts: seq<Attempt>)
    requires ledger.Valid() && !Unrecorded(ledger.rows, request)
    requires SameMarks(ledger.rows, request, primary, fallback, sent)
    requires Free(ledger.rows, ledger.settings, request, primary) && Free(ledger.rows, ledger.settings, request, fallback)
    modifies ledger
    ensures ReferenceRun([primary, fallback], sent, replies, end, attempts)
    ensures trace.calls == Calls(attempts) && trace.end == end <==> !(fallback in sent && primary !in sent)
  {
    hide Free, ReferenceRun, Production, Attempts;
    ghost var rows := ledger.rows;
    var endings := (m: string) => EndingOf(replies(m));
    var sent';
    end, attempts, sent' := TranscribeChunk([primary, fallback], sent, replies);
    trace := Transcribe(ledger, request, [primary, fallback], endings);
    AgreeUnlessOnlyFallbackMarked(rows, ledger.settings, request, primary, fallback, sent, replies, endings, end, attempts);
    assert trace == Trace(trace.calls, trace.end);
  }

  // ----- What the ledger holds afterwards -----

  /** A row of this run and model that says how its request ended. */
  ghost predicate Records(row: Row, settings: Settings, request: Request, model: string, e: Ending) {
    && row.job == request.job && row.retryIndex == request.index && row.model == model
    && row.outcome == OutcomeOf(settings, e) && row.retryAfter == WaitOf(settings, e) && row.result == StoredOf(e)
  }

  /** Every request that was sent has its record, and every other row stands as it was. */
  lemma {:induction false} EveryCallIsRecorded(rows: seq<Row>, settings: Settings, request: Request, calls: seq<string>,
                                               endings: string -> Ending)
    requires AllDistinct(calls)
    ensures var after := AllSent(rows, settings, request, calls, endings);
            && |rows| <= |after|
            && (forall m :: m in calls ==> exists row :: row in after && Records(row, settings, request, m, endings(m)))
            && (forall k :: 0 <= k < |rows| && after[k] != rows[k] ==>
                  rows[k].model in calls && IsReservation(rows[k], request, rows[k].model))
            && (forall k :: |rows| <= k < |after| ==> after[k].model in calls)
  {
    hide OutcomeOf, WaitOf, StoredOf;
    if calls != [] {
      var n := |calls| - 1;
      EveryCallIsRecorded(rows, settings, request, calls[..n], endings);
      var before := AllSent(rows, settings, request, calls[..n], endings);
      SentRecords(before, settings, request, calls[n], endings(calls[n]));
      var after := AllSent(rows, settings, request, calls, endings);
      forall m | m in calls ensures exists row :: row in after && Records(row, settings, request, m, endings(m)) {
        if m != calls[n] {
          assert m in calls[..n];
          var row :| row in before && Records(row, settings, request, m, endings(m));
          var k :| 0 <= k < |before| && before[k] == row;
          assert after[k] == row;
        }
      }
    }
  }

  lemma SentRecords(rows: seq<Row>, settings: Settings, request: Request, model: string, e: Ending)
    ensures var after := Sent(rows, settings, request, model, e);
            && |rows| <= |after|
            && (exists row :: row in after && Records(row, settings, request, model, e))
            && (forall k :: 0 <= k < |rows| && after[k] != rows[k] ==> IsReservation(rows[k], request, model))
            && (forall k :: |rows| <= k < |after| ==> after[k].model == model)
  {
    var after := Sent(rows, settings, request, model, e);
    var k := PlaceOf(rows, request, model);
    assert after[k] in after;
  }
}
