/** The shared reservation ledger of the speech provider: rows are added under a lock when every
    rolling window has room, and nothing ever gives the room back. Times are microseconds. */
module SpeechLedger {
  import opened Wrappers

  const SECOND := 1_000_000
  const DAY := 86400 * SECOND

  /** The longest provider wait, in seconds, that the settings may tell the adapter to accept. */
  const LONGEST_WAIT := 3600

  type Backoff = seconds: real | 0.0 < seconds <= LONGEST_WAIT as real witness 60.0

  /** The share of every limit that is kept in reserve. */
  type Fraction = share: real | 0.0 < share < 1.0 witness 0.05

  datatype Settings = Settings(
    account: string, primary: string, fallback: string,
    requestsPerMinute: Option<nat>, requestsPerDay: Option<nat>,
    audioSecondsPerHour: Option<nat>, audioSecondsPerDay: Option<nat>,
    minimumBillableSeconds: Option<nat>, reserveFraction: Fraction, maxBackoff: Backoff)

  /** A rolling window of `span` microseconds that counts requests or audio seconds. */
  datatype Window = Window(span: nat, limit: Option<nat>, audio: bool)

  function Windows(settings: Settings): seq<Window> {
    [Window(60 * SECOND, settings.requestsPerMinute, false),
     Window(86400 * SECOND, settings.requestsPerDay, false),
     Window(3600 * SECOND, settings.audioSecondsPerHour, true),
     Window(86400 * SECOND, settings.audioSecondsPerDay, true)]
  }

  datatype Failure =
    | RateLimited | Transient | UnknownOutcome | Offline | ModelUnavailable | InvalidResponse
    | QuotaExhausted | MissingAudio | ChunkTooLarge | Unavailable

  datatype Outcome = Reserved | Uncertain | Completed | Failed(failure: Failure)

  datatype Row = Row(job: nat, account: string, model: string, audioSeconds: nat, createdAt: int,
                     outcome: Outcome, retryIndex: nat, retryAfter: Option<nat>, result: Option<seq<string>>)

  // ----- How a request ends -----

  /** What came back: a transcription, a refusal for too many requests with the provider's code and
      its wait in seconds as far as the header could be read, or any other failure. */
  datatype Ending = Heard(segments: seq<string>) | TooMany(exhausted: bool, delay: Option<real>) | Raised(failure: Failure)

  /** The adapter passes a wait on only when it is one the settings accept. */
  predicate Accepted(settings: Settings, e: Ending) {
    e.TooMany? && !e.exhausted && e.delay.Some? && 0.0 <= e.delay.value <= settings.maxBackoff
  }

  /** A refusal for too many requests is a rate limit exactly when its wait is passed on, and an
      exhausted quota otherwise. */
  function OutcomeOf(settings: Settings, e: Ending): (outcome: Outcome)
    ensures e.TooMany? ==> outcome == Failed(RateLimited) || outcome == Failed(QuotaExhausted)
    ensures e.TooMany? ==> (outcome == Failed(RateLimited) <==> WaitOf(settings, e).Some?)
    ensures outcome == Completed <==> StoredOf(e).Some?
  {
    match e
    case Heard(_) => Completed
    case TooMany(_, _) => Failed(if Accepted(settings, e) then RateLimited else QuotaExhausted)
    case Raised(failure) => Failed(failure)
  }

  function Ceiling(x: real): int {
    if x == x.Floor as real then x.Floor else x.Floor + 1
  }

  /** The wait a row records, in whole seconds: at least the provider's and less than one more. */
  function WaitOf(settings: Settings, e: Ending): (wait: Option<nat>)
    ensures wait.Some? <==> Accepted(settings, e)
    ensures wait.Some? ==> wait.value <= LONGEST_WAIT && e.delay.value <= wait.value as real < e.delay.value + 1.0
  {
    if Accepted(settings, e) then Some(Ceiling(e.delay.value)) else None
  }

  function StoredOf(e: Ending): Option<seq<string>> {
    match e
    case Heard(segments) => Some(segments)
    case _ => None
  }

  /** The row of a request that ended. */
  function EndedRow(settings: Settings, row: Row, e: Ending): Row {
    row.(outcome := OutcomeOf(settings, e), retryAfter := WaitOf(settings, e), result := StoredOf(e))
  }

  /** Every recorded wait is one the adapter accepted. */
  ghost predicate ShortWaits(rows: seq<Row>) {
    forall row :: row in rows && row.retryAfter.Some? ==> row.retryAfter.value <= LONGEST_WAIT
  }

  // ----- What counts -----

  function Cost(row: Row, audio: bool): nat {
    if audio then row.audioSeconds else 1
  }

  /** Requests or audio seconds of an account and model after an instant; there is no upper bound. */
  function Usage(rows: seq<Row>, account: string, model: string, after: int, audio: bool): nat {
    if rows == [] then 0
    else
      var row := rows[|rows| - 1];
      Usage(rows[..|rows| - 1], account, model, after, audio)
      + (if row.account == account && row.model == model && row.createdAt > after then Cost(row, audio) else 0)
  }

  /** The same count inside the interval (after, upTo]. */
  function UsageWithin(rows: seq<Row>, account: string, model: string, after: int, upTo: int, audio: bool): nat {
    if rows == [] then 0
    else
      var row := rows[|rows| - 1];
      UsageWithin(rows[..|rows| - 1], account, model, after, upTo, audio)
      + (if row.account == account && row.model == model && after < row.createdAt <= upTo then Cost(row, audio) else 0)
  }

  // ----- The rolling caps -----

  /** For every account and model, no window of any configured length, wherever it is placed, holds
      more than its limit. */
  ghost predicate Capped(rows: seq<Row>, settings: Settings) {
    forall w, account, model, upTo :: w in Windows(settings) ==> CappedAt(rows, w, account, model, upTo)
  }

  ghost predicate CappedAt(rows: seq<Row>, w: Window, account: string, model: string, upTo: int) {
    w.limit.Some? ==> UsageWithin(rows, account, model, upTo - w.span, upTo, w.audio) <= w.limit.value
  }

  /** The admission test of one window. */
  predicate HasRoom(rows: seq<Row>, account: string, w: Window, model: string, at: int, seconds: nat) {
    && w.limit.Some?
    && Usage(rows, account, model, at - w.span, w.audio) + (if w.audio then seconds else 1) <= w.limit.value
  }

  lemma {:induction false} WithinIsPartOf(rows: seq<Row>, account: string, model: string,
                                          after: int, upTo: int, since: int, audio: bool)
    requires since <= after
    ensures UsageWithin(rows, account, model, after, upTo, audio) <= Usage(rows, account, model, since, audio)
  {
    if rows != [] { WithinIsPartOf(rows[..|rows| - 1], account, model, after, upTo, since, audio); }
  }

  /** An admitted row keeps every window within its limit, also the windows that start before it
      and the windows that end after it, and whatever the order of the timestamps so far. */
  lemma AdmissionKeepsCaps(rows: seq<Row>, settings: Settings, row: Row)
    requires Capped(rows, settings)
    requires forall w :: w in Windows(settings) ==> HasRoom(rows, row.account, w, row.model, row.createdAt, row.audioSeconds)
    ensures Capped(rows + [row], settings)
  {
    assert (rows + [row])[..|rows|] == rows;
    forall w, account, model, upTo | w in Windows(settings) ensures CappedAt(rows + [row], w, account, model, upTo) {
      assert CappedAt(rows, w, account, model, upTo);
      if account == row.account && model == row.model && upTo - w.span < row.createdAt <= upTo {
        WithinIsPartOf(rows, row.account, model, upTo - w.span, upTo, row.createdAt - w.span, w.audio);
      }
    }
  }

  /** What a row counts for. */
  predicate SameCost(a: Row, b: Row) {
    a.account == b.account && a.model == b.model && a.createdAt == b.createdAt && a.audioSeconds == b.audioSeconds
  }

  /** Rewriting what a row reports does not touch what it counts for. */
  lemma {:induction false} ReportKeepsUsage(rows: seq<Row>, k: nat, row: Row, account: string, model: string,
                                            after: int, upTo: int, audio: bool)
    requires k < |rows| && SameCost(rows[k], row)
    ensures UsageWithin(rows[k := row], account, model, after, upTo, audio) == UsageWithin(rows, account, model, after, upTo, audio)
    ensures Usage(rows[k := row], account, model, after, audio) == Usage(rows, account, model, after, audio)
  {
    var changed := rows[k := row];
    if k < |rows| - 1 {
      ReportKeepsUsage(rows[..|rows| - 1], k, row, account, model, after, upTo, audio);
      assert changed[..|rows| - 1] == rows[..|rows| - 1][k := row];
    } else {
      assert changed[..|rows| - 1] == rows[..|rows| - 1];
    }
  }

  lemma ReportKeepsCaps(rows: seq<Row>, settings: Settings, k: nat, row: Row)
    requires Capped(rows, settings) && k < |rows| && SameCost(rows[k], row)
    ensures Capped(rows[k := row], settings)
  {
    var changed := rows[k := row];
    forall w, account, model, upTo | w in Windows(settings) ensures CappedAt(changed, w, account, model, upTo) {
      assert CappedAt(rows, w, account, model, upTo);
      ReportKeepsUsage(rows, k, row, account, model, upTo - w.span, upTo, w.audio);
    }
  }

  // ----- The ledger table -----

  /** The least number of seconds that covers the audio, the provider's minimum and one second. */
  function BillableSeconds(settings: Settings, duration: nat): (seconds: nat)
    ensures Covers(settings, duration, seconds)
    ensures forall fewer: nat :: Covers(settings, duration, fewer) ==> seconds <= fewer
  {
    var minimum := match settings.minimumBillableSeconds case None => 1 case Some(m) => if m == 0 then 1 else m;
    if duration < minimum then minimum else duration
  }

  predicate Covers(settings: Settings, duration: nat, seconds: nat) {
    duration <= seconds && 1 <= seconds && (settings.minimumBillableSeconds.Some? ==> settings.minimumBillableSeconds.value <= seconds)
  }

  /** The audio seconds of some rows. */
  ghost function SecondsOf(rows: seq<Row>, chosen: set<nat>, n: nat): nat
    requires n <= |rows|
  {
    if n == 0 then 0 else SecondsOf(rows, chosen, n - 1) + (if n - 1 in chosen then rows[n - 1].audioSeconds else 0)
  }

  /** The rows of an account and model reserved after an instant. */
  ghost function RowsAfter(rows: seq<Row>, account: string, model: string, after: int): set<nat> {
    set k: nat | k < |rows| && rows[k].account == account && rows[k].model == model && rows[k].createdAt > after
  }

  lemma {:induction false} UsageCountsAfter(rows: seq<Row>, account: string, model: string, after: int, n: nat)
    requires n <= |rows|
    ensures Usage(rows[..n], account, model, after, false) == |RowsAfter(rows[..n], account, model, after)|
  {
    var chosen := RowsAfter(rows[..n], account, model, after);
    if n == 0 {
      assert chosen == {};
    } else {
      UsageCountsAfter(rows, account, model, after, n - 1);
      assert rows[..n][..n - 1] == rows[..n - 1];
      var before := RowsAfter(rows[..n - 1], account, model, after);
      assert chosen == before + (if n - 1 in chosen then {n - 1} else {});
      assert n - 1 !in before;
    }
  }

  lemma {:induction false} UsageSumsAfter(rows: seq<Row>, account: string, model: string, after: int, n: nat)
    requires n <= |rows|
    ensures Usage(rows[..n], account, model, after, true) == SecondsOf(rows, RowsAfter(rows, account, model, after), n)
  {
    if n > 0 {
      UsageSumsAfter(rows, account, model, after, n - 1);
      assert rows[..n][..n - 1] == rows[..n - 1];
    }
  }

  /** All four limits are configured, and each leaves room: for one more request in the minute and the day
      before this time, and for so many more audio seconds in the hour and the day, where rows stamped later
      count as well. */
  ghost predicate Admissible(rows: seq<Row>, settings: Settings, account: string, model: string, at: int, seconds: nat) {
    && settings.requestsPerMinute.Some?
    && |RowsAfter(rows, account, model, at - 60_000_000)| + 1 <= settings.requestsPerMinute.value
    && settings.requestsPerDay.Some?
    && |RowsAfter(rows, account, model, at - 86_400_000_000)| + 1 <= settings.requestsPerDay.value
    && settings.audioSecondsPerHour.Some?
    && SecondsOf(rows, RowsAfter(rows, account, model, at - 3_600_000_000), |rows|) + seconds <= settings.audioSecondsPerHour.value
    && settings.audioSecondsPerDay.Some?
    && SecondsOf(rows, RowsAfter(rows, account, model, at - 86_400_000_000), |rows|) + seconds <= settings.audioSecondsPerDay.value
  }

  /** That is what the four windows ask. */
  lemma AdmissibleIffRoom(rows: seq<Row>, settings: Settings, account: string, model: string, at: int, seconds: nat)
    ensures Admissible(rows, settings, account, model, at, seconds) <==>
            forall w :: w in Windows(settings) ==> HasRoom(rows, account, w, model, at, seconds)
  {
    assert rows[..|rows|] == rows;
    UsageCountsAfter(rows, account, model, at - 60_000_000, |rows|);
    UsageCountsAfter(rows, account, model, at - 86_400_000_000, |rows|);
    UsageSumsAfter(rows, account, model, at - 3_600_000_000, |rows|);
    UsageSumsAfter(rows, account, model, at - 86_400_000_000, |rows|);
    hide Usage, RowsAfter, SecondsOf;
    var windows := Windows(settings);
    assert windows[0] in windows && windows[1] in windows && windows[2] in windows && windows[3] in windows;
    assert forall w :: w in windows ==> w == windows[0] || w == windows[1] || w == windows[2] || w == windows[3];
  }

  class Ledger {
    const settings: Settings
    var rows: seq<Row>

    ghost predicate Valid()
      reads this
    {
      Capped(rows, settings) && ShortWaits(rows)
    }

    constructor (settings: Settings)
      ensures Valid() && this.settings == settings && rows == []
    {
      this.settings := settings;
      rows := [];
      new;
      forall w, account, model, upTo | w in Windows(settings) ensures CappedAt([], w, account, model, upTo) {}
    }

    /** Reserve one request of `duration` whole seconds (rounded up) at a time of the caller's
        choosing, which need not be later than the times already in the table. */
    method ReserveIn(job: nat, model: string, duration: nat, index: nat, at: int, outcome: Outcome)
      returns (result: Result<nat, Failure>)
      requires Valid()
      modifies this
      ensures Valid()
      ensures var seconds := BillableSeconds(settings, duration);
              if Admissible(old(rows), settings, settings.account, model, at, seconds)
              then result == Success(|old(rows)|)
                   && rows == old(rows) + [Row(job, settings.account, model, seconds, at, outcome, index, None, None)]
              else result == Failure(QuotaExhausted) && rows == old(rows)
      ensures rows == After(old(rows), settings, Reserve(job, settings.account, model, duration, index, at, outcome))
    {
      var seconds := BillableSeconds(settings, duration);
      AdmissibleIffRoom(rows, settings, settings.account, model, at, seconds);
      hide Admissible;
      var windows := Windows(settings);
      for k := 0 to |windows|
        invariant rows == old(rows)
        invariant forall a :: 0 <= a < k ==> HasRoom(rows, settings.account, windows[a], model, at, seconds)
      {
        if !HasRoom(rows, settings.account, windows[k], model, at, seconds) {
          assert windows[k] in Windows(settings);
          return Failure(QuotaExhausted);
        }
      }
      var row := Row(job, settings.account, model, seconds, at, outcome, index, None, None);
      AdmissionKeepsCaps(rows, settings, row);
      rows := rows + [row];
      return Success(|rows| - 1);
    }

    /** A reserved row is about to be sent. */
    method Mark(k: nat)
      requires Valid() && k < |rows|
      modifies this
      ensures Valid()
      ensures rows == old(rows)[k := old(rows)[k].(outcome := Uncertain)] == After(old(rows), settings, Take(k))
    {
      ReportKeepsCaps(rows, settings, k, rows[k].(outcome := Uncertain));
      assert rows[k] in rows;
      rows := rows[k := rows[k].(outcome := Uncertain)];
    }

    /** Record how the request of row k ended. */
    method Report(k: nat, e: Ending)
      requires Valid() && k < |rows|
      modifies this
      ensures Valid()
      ensures rows == old(rows)[k := EndedRow(settings, old(rows)[k], e)] == After(old(rows), settings, Finish(k, e))
    {
      ReportKeepsCaps(rows, settings, k, EndedRow(settings, rows[k], e));
      rows := rows[k := EndedRow(settings, rows[k], e)];
    }
  }

  // ----- Whole runs -----

  datatype Event =
    | Reserve(job: nat, account: string, model: string, duration: nat, index: nat, at: int, outcome: Outcome)
    | Take(k: nat)
    | Finish(k: nat, end: Ending)

  /** What one ledger operation does to the rows. */
  function After(rows: seq<Row>, settings: Settings, e: Event): seq<Row> {
    match e
    case Reserve(job, account, model, duration, index, at, outcome) =>
      var seconds := BillableSeconds(settings, duration);
      if forall w :: w in Windows(settings) ==> HasRoom(rows, account, w, model, at, seconds)
      then rows + [Row(job, account, model, seconds, at, outcome, index, None, None)]
      else rows
    case Take(k) => if k < |rows| then rows[k := rows[k].(outcome := Uncertain)] else rows
    case Finish(k, end) => if k < |rows| then rows[k := EndedRow(settings, rows[k], end)] else rows
  }

  function AfterAll(settings: Settings, events: seq<Event>): seq<Row> {
    if events == [] then []
    else After(AfterAll(settings, events[..|events| - 1]), settings, events[|events| - 1])
  }

  /** Over any history of reservations and reports, every window of every configured length holds
      at most its limit, for every account and model, and no recorded wait is longer than an hour. */
  lemma {:induction false} EveryRunIsCapped(settings: Settings, events: seq<Event>)
    ensures Capped(AfterAll(settings, events), settings) && ShortWaits(AfterAll(settings, events))
  {
    if events == [] {
      forall w, account, model, upTo | w in Windows(settings) ensures CappedAt([], w, account, model, upTo) {}
    } else {
      var rows := AfterAll(settings, events[..|events| - 1]);
      EveryRunIsCapped(settings, events[..|events| - 1]);
      match events[|events| - 1]
      case Reserve(job, account, model, duration, index, at, outcome) =>
        var seconds := BillableSeconds(settings, duration);
        if forall w :: w in Windows(settings) ==> HasRoom(rows, account, w, model, at, seconds) {
          AdmissionKeepsCaps(rows, settings, Row(job, account, model, seconds, at, outcome, index, None, None));
        }
      case Take(k) =>
        if k < |rows| {
          assert rows[k] in rows;
          ReportKeepsCaps(rows, settings, k, rows[k].(outcome := Uncertain));
        }
      case Finish(k, end) =>
        if k < |rows| { ReportKeepsCaps(rows, settings, k, EndedRow(settings, rows[k], end)); }
    }
  }

  /** The rows of an account and model reserved in (upTo - span, upTo]. */
  ghost function RowsIn(rows: seq<Row>, account: string, model: string, span: nat, upTo: int): set<nat> {
    set k: nat | k < |rows| && rows[k].account == account && rows[k].model == model && upTo - span < rows[k].createdAt <= upTo
  }

  lemma {:induction false} UsageCountsRows(rows: seq<Row>, account: string, model: string, span: nat, upTo: int, n: nat)
    requires n <= |rows|
    ensures UsageWithin(rows[..n], account, model, upTo - span, upTo, false) == |RowsIn(rows[..n], account, model, span, upTo)|
  {
    var chosen := RowsIn(rows[..n], account, model, span, upTo);
    if n == 0 {
      assert chosen == {};
    } else {
      UsageCountsRows(rows, account, model, span, upTo, n - 1);
      assert rows[..n][..n - 1] == rows[..n - 1];
      var before := RowsIn(rows[..n - 1], account, model, span, upTo);
      assert chosen == before + (if n - 1 in chosen then {n - 1} else {});
      assert n - 1 !in before;
    }
  }

  lemma {:induction false} UsageSumsRows(rows: seq<Row>, account: string, model: string, span: nat, upTo: int, n: nat)
    requires n <= |rows|
    ensures UsageWithin(rows[..n], account, model, upTo - span, upTo, true)
         == SecondsOf(rows, RowsIn(rows, account, model, span, upTo), n)
  {
    if n > 0 {
      UsageSumsRows(rows, account, model, span, upTo, n - 1);
      assert rows[..n][..n - 1] == rows[..n - 1];
    }
  }

  /** The four limits in their own units, over any history: requests in any minute and in any day, audio
      seconds in any hour and in any day, for every account and model. */
  lemma EveryLimitHolds(settings: Settings, events: seq<Event>, account: string, model: string, upTo: int)
    ensures var rows := AfterAll(settings, events);
            && (settings.requestsPerMinute.Some? ==>
                  |RowsIn(rows, account, model, 60_000_000, upTo)| <= settings.requestsPerMinute.value)
            && (settings.requestsPerDay.Some? ==>
                  |RowsIn(rows, account, model, 86_400_000_000, upTo)| <= settings.requestsPerDay.value)
            && (settings.audioSecondsPerHour.Some? ==>
                  SecondsOf(rows, RowsIn(rows, account, model, 3_600_000_000, upTo), |rows|) <= settings.audioSecondsPerHour.value)
            && (settings.audioSecondsPerDay.Some? ==>
                  SecondsOf(rows, RowsIn(rows, account, model, 86_400_000_000, upTo), |rows|) <= settings.audioSecondsPerDay.value)
  {
    hide AfterAll, UsageWithin, RowsIn, SecondsOf;
    var rows := AfterAll(settings, events);
    EveryRunIsCapped(settings, events);
    assert rows[..|rows|] == rows;
    forall k | 0 <= k < 4 ensures CappedAt(rows, Windows(settings)[k], account, model, upTo) {
      assert Windows(settings)[k] in Windows(settings);
    }
    assert CappedAt(rows, Windows(settings)[0], account, model, upTo) && CappedAt(rows, Windows(settings)[1], account, model, upTo);
    assert CappedAt(rows, Windows(settings)[2], account, model, upTo) && CappedAt(rows, Windows(settings)[3], account, model, upTo);
    UsageCountsRows(rows, account, model, 60_000_000, upTo, |rows|);
    UsageCountsRows(rows, account, model, 86_400_000_000, upTo, |rows|);
    UsageSumsRows(rows, account, model, 3_600_000_000, upTo, |rows|);
    UsageSumsRows(rows, account, model, 86_400_000_000, upTo, |rows|);
  }

  /** The count must not stop at the new timestamp: with commits out of order, a ledger that counts
      only rows up to it admits a second request into a one-request minute. */
  lemma CountingOnlyThePastIsNotEnough(settings: Settings, first: Row, second: Row)
    requires settings.requestsPerMinute == Some(1)
    requires first.account == second.account && first.model == second.model
    requires second.createdAt < first.createdAt < second.createdAt + 60 * SECOND
    ensures Capped([], settings)
    ensures UsageWithin([first], first.account, second.model, second.createdAt - 60 * SECOND, second.createdAt, false) + 1 <= 1
    ensures !Capped([first, second], settings)
  {
    forall w, account, model, upTo | w in Windows(settings) ensures CappedAt([], w, account, model, upTo) {}
    var minute := Windows(settings)[0];
    assert [first, second][..1] == [first] && [first][..0] == [];
    assert UsageWithin([first], first.account, first.model, first.createdAt - 60 * SECOND, first.createdAt, false) == 1;
    assert !CappedAt([first, second], minute, first.account, first.model, first.createdAt);
  }
}
