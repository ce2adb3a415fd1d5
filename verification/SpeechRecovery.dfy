/** How long new intake has to pause: the time until each rolling window of the speech provider is
    back below its reserve, and the provider's own hold. Times are microseconds. */
module SpeechRecovery {
  import opened Wrappers
  import opened Numbers
  import opened Lists
  import opened SpeechLedger

  /** The rows one window query selects for the primary model. */
  predicate InWindow(settings: Settings, row: Row, after: int) {
    row.account == settings.account && row.model == settings.primary && row.createdAt > after
  }

  function Select(rows: seq<Row>, settings: Settings, after: int): (r: seq<Row>)
    ensures forall x :: x in r ==> InWindow(settings, x, after)
  {
    if rows == [] then []
    else
      var row := rows[|rows| - 1];
      Select(rows[..|rows| - 1], settings, after) + (if InWindow(settings, row, after) then [row] else [])
  }

  predicate Oldest(rows: seq<Row>) {
    forall a, b :: 0 <= a < b < |rows| ==> rows[a].createdAt <= rows[b].createdAt
  }

  predicate Older(a: Row, b: Row) {
    a.createdAt < b.createdAt
  }

  /** The query's ORDER BY: by creation time, rows of the same time as they stand. */
  function ByTime(rows: seq<Row>): seq<Row> {
    Sort(rows, Older)
  }

  lemma ByTimeOrders(rows: seq<Row>)
    ensures Oldest(ByTime(rows)) && forall x :: x in ByTime(rows) <==> x in rows
  {
    SortSorts(rows, Older);
    SamePermutation(ByTime(rows), rows);
    forall a, b | 0 <= a < b < |ByTime(rows)| ensures ByTime(rows)[a].createdAt <= ByTime(rows)[b].createdAt {
      assert !Older(ByTime(rows)[b], ByTime(rows)[a]);
    }
  }

  function Used(rows: seq<Row>, settings: Settings, after: int, audio: bool): nat {
    Usage(rows, settings.account, settings.primary, after, audio)
  }

  // ----- Counting the ordered rows -----

  lemma UsedAppend(rows: seq<Row>, row: Row, settings: Settings, since: int, audio: bool)
    ensures Used(rows + [row], settings, since, audio)
         == Used(rows, settings, since, audio) + (if InWindow(settings, row, since) then Cost(row, audio) else 0)
  {
    assert (rows + [row])[..|rows|] == rows;
  }

  lemma {:induction false} SelectKeepsUsage(rows: seq<Row>, settings: Settings, after: int, since: int, audio: bool)
    requires after <= since
    ensures Used(Select(rows, settings, after), settings, since, audio) == Used(rows, settings, since, audio)
  {
    if rows != [] {
      var row, before := rows[|rows| - 1], rows[..|rows| - 1];
      SelectKeepsUsage(before, settings, after, since, audio);
      var chosen := Select(before, settings, after);
      assert (chosen + [row])[..|chosen|] == chosen && chosen + [] == chosen;
    }
  }

  lemma {:induction false} UsedBefore(row: Row, rows: seq<Row>, settings: Settings, since: int, audio: bool)
    ensures Used([row] + rows, settings, since, audio)
         == Used(rows, settings, since, audio) + (if InWindow(settings, row, since) then Cost(row, audio) else 0)
  {
    if rows == [] {
      assert [row] + rows == [] + [row];
      UsedAppend([], row, settings, since, audio);
    } else {
      var before, last := rows[..|rows| - 1], rows[|rows| - 1];
      UsedBefore(row, before, settings, since, audio);
      assert [row] + rows == ([row] + before) + [last] && rows == before + [last];
      UsedAppend([row] + before, last, settings, since, audio);
      UsedAppend(before, last, settings, since, audio);
    }
  }

  lemma {:induction false} InsertKeepsUsage(row: Row, rows: seq<Row>, settings: Settings, since: int, audio: bool)
    ensures Used(Insert(row, rows, Older), settings, since, audio) == Used([row] + rows, settings, since, audio)
  {
    hide Used;
    if rows != [] && Older(rows[0], row) {
      var first, rest := rows[0], rows[1..];
      assert rows == [first] + rest;
      InsertKeepsUsage(row, rest, settings, since, audio);
      UsedBefore(first, Insert(row, rest, Older), settings, since, audio);
      UsedBefore(row, rest, settings, since, audio);
      UsedBefore(first, rest, settings, since, audio);
      UsedBefore(row, rows, settings, since, audio);
    }
  }

  lemma {:induction false} OrderKeepsUsage(rows: seq<Row>, settings: Settings, since: int, audio: bool)
    ensures Used(ByTime(rows), settings, since, audio) == Used(rows, settings, since, audio)
  {
    hide Used;
    if rows != [] {
      var first, rest := rows[0], rows[1..];
      assert rows == [first] + rest;
      OrderKeepsUsage(rest, settings, since, audio);
      InsertKeepsUsage(first, ByTime(rest), settings, since, audio);
      UsedBefore(first, ByTime(rest), settings, since, audio);
      UsedBefore(first, rest, settings, since, audio);
    }
  }

  lemma NoneUsed(settings: Settings, since: int, audio: bool)
    ensures Used([], settings, since, audio) == 0
  {
  }

  /** What the first k rows count for. */
  function Released(rows: seq<Row>, audio: bool, k: nat): nat
    requires k <= |rows|
  {
    if k == 0 then 0 else Released(rows, audio, k - 1) + Cost(rows[k - 1], audio)
  }

  /** Once every row up to k has left the window, at most the others still count; before row k
      leaves it, all rows from k on count. */
  lemma {:induction false} UsageAfterRelease(rows: seq<Row>, settings: Settings, since: int, audio: bool, k: nat, n: nat)
    requires Oldest(rows) && k <= n <= |rows|
    requires forall x :: x in rows ==> x.account == settings.account && x.model == settings.primary
    ensures (k > 0 && rows[k - 1].createdAt <= since) || k == 0 ==>
              Used(rows[..n], settings, since, audio) <= Released(rows, audio, n) - Released(rows, audio, k)
    ensures k == |rows| || since < rows[k].createdAt ==>
              Used(rows[..n], settings, since, audio) >= Released(rows, audio, n) - Released(rows, audio, k)
    decreases n
  {
    hide Used;
    NoneUsed(settings, since, audio);
    if n > 0 {
      assert rows[..n] == rows[..n - 1] + [rows[n - 1]];
      UsedAppend(rows[..n - 1], rows[n - 1], settings, since, audio);
      if k < n {
        UsageAfterRelease(rows, settings, since, audio, k, n - 1);
        assert rows[n - 1] in rows;
      } else if k > 0 && rows[k - 1].createdAt <= since {
        NothingLeft(rows, settings, since, audio, n);
      }
    }
  }

  lemma {:induction false} NothingLeft(rows: seq<Row>, settings: Settings, since: int, audio: bool, n: nat)
    requires n <= |rows| && forall k :: 0 <= k < n ==> rows[k].createdAt <= since
    ensures Used(rows[..n], settings, since, audio) == 0
  {
    if n > 0 {
      assert rows[..n][..n - 1] == rows[..n - 1];
      NothingLeft(rows, settings, since, audio, n - 1);
    }
  }

  // ----- One window -----

  datatype LimitStatus = LimitStatus(limit: nat, available: int, reserve: real, recover: nat)

  function Reserve(settings: Settings, limit: nat): real {
    limit as real * settings.reserveFraction
  }

  /** The window is at or below its limit less the reserve. */
  ghost predicate Recovered(rows: seq<Row>, settings: Settings, w: Window, at: int)
    requires w.limit.Some?
  {
    Used(rows, settings, at - w.span, w.audio) as real <= w.limit.value as real - Reserve(settings, w.limit.value)
  }

  /** What the status of one window promises. The recovery time is exactly the least wait: with the
      rows as they are, the window is recovered at a later time if and only if that time is at least
      so far away. */
  ghost predicate LimitOf(rows: seq<Row>, settings: Settings, w: Window, now: int, status: LimitStatus)
    requires w.limit.Some?
  {
    && status.limit == w.limit.value
    && status.available == w.limit.value - Used(rows, settings, now - w.span, w.audio)
    && status.reserve == Reserve(settings, w.limit.value) == w.limit.value as real * settings.reserveFraction
    && forall at :: now <= at ==> (Recovered(rows, settings, w, at) <==> now + status.recover <= at)
  }

  method WindowStatus(rows: seq<Row>, settings: Settings, w: Window, now: int) returns (status: LimitStatus)
    requires w.limit.Some?
    ensures LimitOf(rows, settings, w, now, status)
  {
    hide Used, Reserve, Select, ByTime;
    var limit := w.limit.value;
    var used := Used(rows, settings, now - w.span, w.audio);
    var reserve := Reserve(settings, limit);
    var recover := 0;
    var excess := used as real - (limit as real - reserve);
    if excess > 0.0 {
      var ordered := ByTime(Select(rows, settings, now - w.span));
      Counted(rows, settings, w, now, ordered);
      var released := 0;
      var k := 0;
      while k < |ordered|
        invariant k <= |ordered| && released == Released(ordered, w.audio, k)
        invariant released as real < excess && recover == 0
      {
        released := released + Cost(ordered[k], w.audio);
        k := k + 1;
        if released as real >= excess {
          assert ordered[k - 1] in ordered;
          recover := ordered[k - 1].createdAt + w.span - now;
          break;
        }
      }
      ReserveFits(settings, limit);
      LeastWait(rows, settings, w, now, ordered, k);
    } else {
      forall at | now <= at ensures Recovered(rows, settings, w, at) {
        UsageShrinks(rows, settings, now - w.span, at - w.span, w.audio);
      }
    }
    ReserveIsShare(settings, limit);
    return LimitStatus(limit, limit as int - used, reserve, recover);
  }

  lemma ReserveIsShare(settings: Settings, limit: nat)
    ensures Reserve(settings, limit) == limit as real * settings.reserveFraction
  {
  }

  lemma ReserveFits(settings: Settings, limit: nat)
    ensures 0.0 <= Reserve(settings, limit) <= limit as real
  {
  }

  lemma {:induction false} UsageShrinks(rows: seq<Row>, settings: Settings, since: int, later: int, audio: bool)
    requires since <= later
    ensures Used(rows, settings, later, audio) <= Used(rows, settings, since, audio)
  {
    if rows != [] { UsageShrinks(rows[..|rows| - 1], settings, since, later, audio); }
  }

  /** The ordered rows of the window count for exactly what the whole table counts for. */
  lemma Counted(rows: seq<Row>, settings: Settings, w: Window, now: int, ordered: seq<Row>)
    requires ordered == ByTime(Select(rows, settings, now - w.span))
    ensures Oldest(ordered) && forall x :: x in ordered ==> InWindow(settings, x, now - w.span)
    ensures forall since :: now - w.span <= since ==>
              Used(ordered, settings, since, w.audio) == Used(rows, settings, since, w.audio)
    ensures Used(rows, settings, now - w.span, w.audio) == Released(ordered, w.audio, |ordered|)
  {
    hide Used, Select, ByTime, Released;
    var chosen := Select(rows, settings, now - w.span);
    forall since | now - w.span <= since
      ensures Used(ordered, settings, since, w.audio) == Used(rows, settings, since, w.audio)
    {
      SelectKeepsUsage(rows, settings, now - w.span, since, w.audio);
      OrderKeepsUsage(chosen, settings, since, w.audio);
    }
    ByTimeOrders(chosen);
    assert ordered[..|ordered|] == ordered;
    if ordered != [] { assert ordered[0] in ordered; }
    UsageAfterRelease(ordered, settings, now - w.span, w.audio, 0, |ordered|);
    NothingReleased(ordered, w.audio);
  }

  lemma NothingReleased(rows: seq<Row>, audio: bool)
    ensures Released(rows, audio, 0) == 0
  {
  }

  /** The row whose release first covers the excess decides the recovery time. */
  lemma LeastWait(rows: seq<Row>, settings: Settings, w: Window, now: int, ordered: seq<Row>, k: nat)
    requires w.limit.Some? && ordered == ByTime(Select(rows, settings, now - w.span))
    requires 0 < k <= |ordered|
    requires var excess := Used(rows, settings, now - w.span, w.audio) as real
                         - (w.limit.value as real - Reserve(settings, w.limit.value));
             Released(ordered, w.audio, k - 1) as real < excess <= Released(ordered, w.audio, k) as real
    ensures forall at :: now <= at ==>
              (Recovered(rows, settings, w, at) <==> ordered[k - 1].createdAt + w.span <= at)
  {
    hide Used, Reserve, Released, ByTime, Select;
    Counted(rows, settings, w, now, ordered);
    forall at | now <= at ensures Recovered(rows, settings, w, at) <==> ordered[k - 1].createdAt + w.span <= at {
      StillUsed(rows, settings, w, now, ordered, k, at - w.span);
    }
  }

  /** After an instant, the rows from k on count, and row k - 1 counts unless it is that old. */
  lemma StillUsed(rows: seq<Row>, settings: Settings, w: Window, now: int, ordered: seq<Row>, k: nat, since: int)
    requires ordered == ByTime(Select(rows, settings, now - w.span)) && now - w.span <= since
    requires 0 < k <= |ordered|
    ensures ordered[k - 1].createdAt <= since ==>
              Used(rows, settings, since, w.audio)
              <= Used(rows, settings, now - w.span, w.audio) - Released(ordered, w.audio, k)
    ensures since < ordered[k - 1].createdAt ==>
              Used(rows, settings, since, w.audio)
              >= Used(rows, settings, now - w.span, w.audio) - Released(ordered, w.audio, k - 1)
  {
    hide Used, Released, ByTime, Select;
    Counted(rows, settings, w, now, ordered);
    assert ordered[..|ordered|] == ordered;
    UsageAfterRelease(ordered, settings, since, w.audio, k, |ordered|);
    UsageAfterRelease(ordered, settings, since, w.audio, k - 1, |ordered|);
  }

  // ----- The provider's own hold -----

  /** A refused request whose provider-issued wait is still shown by the day's query. */
  predicate Holds(settings: Settings, row: Row, at: int) {
    && InWindow(settings, row, at - DAY)
    && row.outcome == Failed(RateLimited) && row.retryAfter.Some?
    && row.createdAt + row.retryAfter.value * SECOND > at
  }

  /** The wait a row still imposes. */
  function HoldOf(settings: Settings, row: Row, now: int): nat {
    if Holds(settings, row, now) then row.createdAt + row.retryAfter.value * SECOND - now else 0
  }

  /** A refusal for too many requests holds the provider back exactly until the wait it passed on is over,
      if it was a request of the primary model under this account, and not at all without such a wait. */
  lemma RefusalHolds(settings: Settings, row: Row, e: Ending, at: int)
    requires e.TooMany? && row.createdAt <= at
    ensures var ended, wait := EndedRow(settings, row, e), WaitOf(settings, e);
            Holds(settings, ended, at) <==>
              && row.account == settings.account && row.model == settings.primary
              && wait.Some? && at < row.createdAt + wait.value * 1_000_000
  {
  }

  /** The longest wait of any row; zero when no row holds. */
  function LongestHold(rows: seq<Row>, settings: Settings, now: int): nat {
    if rows == [] then 0
    else Max(LongestHold(rows[..|rows| - 1], settings, now), HoldOf(settings, rows[|rows| - 1], now))
  }

  /** A wait is in force at a later time exactly before the longest one ends: none is so long that the
      day's query loses sight of it. */
  lemma {:induction false} HoldExact(rows: seq<Row>, settings: Settings, now: int, at: int)
    requires now <= at && ShortWaits(rows)
    ensures (exists row :: row in rows && Holds(settings, row, at)) <==> at < now + LongestHold(rows, settings, now)
  {
    if rows != [] {
      var row, before := rows[|rows| - 1], rows[..|rows| - 1];
      assert rows == before + [row];
      assert row in rows;
      HoldExact(before, settings, now, at);
      assert Holds(settings, row, at) <==> at < now + HoldOf(settings, row, now);
    }
  }

  method AsrHold(rows: seq<Row>, settings: Settings, now: int) returns (hold: nat)
    ensures hold == LongestHold(rows, settings, now)
  {
    hold := 0;
    for k := 0 to |rows|
      invariant hold == LongestHold(rows[..k], settings, now)
    {
      assert rows[..k + 1][..k] == rows[..k];
      if Holds(settings, rows[k], now) {
        hold := Max(hold, rows[k].createdAt + rows[k].retryAfter.value * SECOND - now);
      }
    }
    assert rows[..|rows|] == rows;
  }

  // ----- The provider as a whole -----

  datatype ProviderStatus = ProviderStatus(limits: seq<LimitStatus>, hold: nat) {
    /** The pause reported to the intake. */
    function RetryAfter(): nat {
      Max(hold, LongestRecovery(limits))
    }

    predicate NearExhaustion() {
      RetryAfter() > 0
    }
  }

  function LongestRecovery(limits: seq<LimitStatus>): nat {
    if limits == [] then 0 else Max(LongestRecovery(limits[..|limits| - 1]), limits[|limits| - 1].recover)
  }

  /** The windows that have a limit; without one no status is computed and no hold is read. */
  function Limited(windows: seq<Window>): (r: seq<Window>)
    ensures forall w :: w in r <==> w in windows && w.limit.Some?
  {
    Filter(windows, (w: Window) => w.limit.Some?)
  }

  /** Some window with a limit is above that limit less the reserve. */
  ghost predicate Short(rows: seq<Row>, settings: Settings, windows: seq<Window>, at: int) {
    exists w :: w in windows && w.limit.Some? && !Recovered(rows, settings, w, at)
  }

  /** Some window is short, or a hold is in force. */
  ghost predicate Exhausted(rows: seq<Row>, settings: Settings, at: int) {
    || Short(rows, settings, Windows(settings), at)
    || (Limited(Windows(settings)) != [] && exists row :: row in rows && Holds(settings, row, at))
  }

  /** One exact status per window. */
  ghost predicate LimitsOf(rows: seq<Row>, settings: Settings, windows: seq<Window>, now: int, limits: seq<LimitStatus>) {
    && |limits| == |windows|
    && forall k :: 0 <= k < |limits| ==>
         windows[k].limit.Some? && LimitOf(rows, settings, windows[k], now, limits[k])
  }

  /** What the status of the speech provider promises about the rows it was computed from. */
  ghost predicate StatusOf(rows: seq<Row>, settings: Settings, now: int, status: ProviderStatus) {
    && LimitsOf(rows, settings, Limited(Windows(settings)), now, status.limits)
    && status.hold == (if status.limits == [] then 0 else LongestHold(rows, settings, now))
  }

  /** Windows are short exactly until the longest of their recovery times. */
  lemma {:induction false} ShortUntilRecovered(rows: seq<Row>, settings: Settings, windows: seq<Window>, now: int,
                                               limits: seq<LimitStatus>, at: int)
    requires now <= at && LimitsOf(rows, settings, windows, now, limits)
    ensures Short(rows, settings, windows, at) <==> at < now + LongestRecovery(limits)
  {
    hide Recovered;
    if limits != [] {
      var n := |limits| - 1;
      var w := windows[n];
      ShortUntilRecovered(rows, settings, windows[..n], now, limits[..n], at);
      assert windows == windows[..n] + [w];
      assert LimitOf(rows, settings, w, now, limits[n]);
      assert Short(rows, settings, windows, at) <==>
             Short(rows, settings, windows[..n], at) || !Recovered(rows, settings, w, at) by {
        assert w in windows;
      }
    }
  }

  /** The status at a time, computed from the ledger as it stands. */
  method GroqStatus(ledger: Ledger, now: int) returns (status: ProviderStatus)
    requires ledger.Valid()
    ensures StatusOf(ledger.rows, ledger.settings, now, status)
    ensures forall at :: now <= at ==> (Exhausted(ledger.rows, ledger.settings, at) <==> at < now + status.RetryAfter())
  {
    hide LimitOf, LongestHold, Exhausted, Capped;
    var rows, settings := ledger.rows, ledger.settings;
    var windows := Limited(Windows(settings));
    var limits: seq<LimitStatus> := [];
    for k := 0 to |windows|
      invariant LimitsOf(rows, settings, windows[..k], now, limits)
    {
      assert windows[k] in windows;
      var limit := WindowStatus(rows, settings, windows[k], now);
      limits := limits + [limit];
    }
    assert windows[..|windows|] == windows;
    var hold := 0;
    if limits != [] {
      hold := AsrHold(rows, settings, now);
    }
    status := ProviderStatus(limits, hold);
    forall at | now <= at ensures Exhausted(rows, settings, at) <==> at < now + status.RetryAfter() {
      PauseIsLeast(rows, settings, now, status, at);
    }
  }

  /** The reported pause is exactly the least one: with no new reservation, the provider is exhausted
      at a later time if and only if that time lies before the end of the pause. */
  lemma PauseIsLeast(rows: seq<Row>, settings: Settings, now: int, status: ProviderStatus, at: int)
    requires ShortWaits(rows) && StatusOf(rows, settings, now, status) && now <= at
    ensures Exhausted(rows, settings, at) <==> at < now + status.RetryAfter()
  {
    hide LimitOf, LongestHold, Recovered, Holds;
    var windows := Windows(settings);
    ShortUntilRecovered(rows, settings, Limited(windows), now, status.limits, at);
    HoldExact(rows, settings, now, at);
    assert Short(rows, settings, windows, at) <==> Short(rows, settings, Limited(windows), at) by {
      if Short(rows, settings, windows, at) {
        var w :| w in windows && w.limit.Some? && !Recovered(rows, settings, w, at);
        assert w in Limited(windows);
      }
    }
  }

  /** Over every history of the ledger: a status computed after the pause that an earlier one reported
      shows no near exhaustion, and a status computed before its end does. */
  lemma PauseEndsNearExhaustion(settings: Settings, events: seq<Event>, now: int, status: ProviderStatus,
                                later: int, after: ProviderStatus)
    requires now <= later
    requires StatusOf(AfterAll(settings, events), settings, now, status)
    requires StatusOf(AfterAll(settings, events), settings, later, after)
    ensures after.NearExhaustion() <==> later < now + status.RetryAfter()
  {
    hide StatusOf, AfterAll, Exhausted;
    var rows := AfterAll(settings, events);
    EveryRunIsCapped(settings, events);
    PauseIsLeast(rows, settings, now, status, later);
    PauseIsLeast(rows, settings, later, after, later);
  }
}
