/** One pass over the decoded frames of a clip picks a frame each second, from them one every five
    seconds, and from them those whose picture changed. Decoding and images are not modelled: a frame is
    its rounded presentation time and its grey thumbnail. A frame is named by its time in decimal, so
    times stand for frame identifiers. */
module VideoSampling {
  import opened Wrappers
  import opened Numbers

  const THUMBNAIL: nat := 4096
  const THRESHOLD: nat := 12

  datatype Frame = Frame(time: Option<int>, pixels: seq<nat>)

  /** A probed frame. */
  datatype Probe = Probe(time: int, pixels: seq<nat>)

  datatype VideoError = NoDuration | MissingTime | Nonmonotonic | MissingProbe | MissingFixed | IncompleteFixed | IncompleteProbes

  datatype Sampling = Sampling(frames: seq<int>, fixed: seq<int>, changed: seq<int>, unavailable: Option<int>, lastDecoded: int)

  // ----- Change detection -----

  function TotalDistance(a: seq<nat>, b: seq<nat>): nat
    requires |a| == |b|
  {
    if a == [] then 0 else Distance(a[0], b[0]) + TotalDistance(a[1..], b[1..])
  }

  /** The mean grey difference reaches the threshold. */
  predicate Changed(previous: seq<nat>, current: seq<nat>)
    requires |previous| == |current|
  {
    TotalDistance(previous, current) >= THRESHOLD * |current|
  }

  lemma {:induction false} DistanceBounds(a: seq<nat>, b: seq<nat>)
    requires |a| == |b|
    ensures (forall k :: 0 <= k < |a| ==> Distance(a[k], b[k]) >= THRESHOLD) ==> TotalDistance(a, b) >= THRESHOLD * |a|
    ensures a != [] && (forall k :: 0 <= k < |a| ==> Distance(a[k], b[k]) < THRESHOLD) ==> TotalDistance(a, b) < THRESHOLD * |a|
  {
    if a != [] {
      DistanceBounds(a[1..], b[1..]);
      assert forall k :: 0 <= k < |a| - 1 ==> Distance(a[1..][k], b[1..][k]) == Distance(a[k + 1], b[k + 1]);
    }
  }

  /** A picture of which every pixel moved by the threshold has changed, one of which none did has not. */
  lemma ChangedBounds(previous: seq<nat>, current: seq<nat>)
    requires |previous| == |current| > 0
    ensures (forall k :: 0 <= k < |current| ==> previous[k] + 12 <= current[k] || current[k] + 12 <= previous[k]) ==>
              Changed(previous, current)
    ensures (forall k :: 0 <= k < |current| ==> previous[k] < current[k] + 12 && current[k] < previous[k] + 12) ==>
              !Changed(previous, current)
  {
    DistanceBounds(previous, current);
  }

  predicate Thumbnails(frames: seq<Frame>) {
    forall i :: 0 <= i < |frames| ==> |frames[i].pixels| == THUMBNAIL
  }

  // ----- What a pass accepts -----

  /** The second a time falls into. */
  function Slot(time: int): int {
    time / 1000
  }

  /** The time of frame `i`, or just before zero in front of the first. */
  function TimeAt(frames: seq<Frame>, i: int): int
    requires -1 <= i < |frames|
  {
    if i == -1 || frames[i].time.None? then -1 else frames[i].time.value
  }

  /** Frames up to and including this index are timed and in order. */
  predicate Readable(frames: seq<Frame>, last: int)
    requires last < |frames|
  {
    forall i :: 0 <= i <= last ==> frames[i].time.Some? && TimeAt(frames, i - 1) <= TimeAt(frames, i)
  }

  /** No second is skipped between these frames. */
  predicate Dense(frames: seq<Frame>, n: nat)
    requires n <= |frames|
  {
    forall i :: 0 <= i < n ==> Slot(TimeAt(frames, i)) <= Slot(TimeAt(frames, i - 1)) + 1
  }

  /** Decoding stops at a frame past the end that also begins a new second. */
  predicate Stops(frames: seq<Frame>, duration: nat, i: nat)
    requires i < |frames|
  {
    frames[i].time.Some? && frames[i].time.value >= duration && Slot(frames[i].time.value) > Slot(TimeAt(frames, i - 1))
  }

  /** The first frame from `i` on at which decoding stops, or the number of frames. */
  function StopFrom(frames: seq<Frame>, duration: nat, i: nat): (n: nat)
    requires i <= |frames|
    ensures i <= n <= |frames|
    decreases |frames| - i
  {
    if i == |frames| || Stops(frames, duration, i) then i else StopFrom(frames, duration, i + 1)
  }

  function CeilDiv(a: nat, b: nat): nat
    requires b > 0
  {
    (a + b - 1) / b
  }

  /** The number of seconds probed. */
  function Probed(frames: seq<Frame>, duration: nat): int {
    Slot(TimeAt(frames, StopFrom(frames, duration, 0) - 1)) + 1
  }

  /** The last index that was read. */
  function LastRead(frames: seq<Frame>, duration: nat): (last: int)
    ensures -1 <= last < |frames|
  {
    var n := StopFrom(frames, duration, 0);
    if n < |frames| then n else n - 1
  }

  /** A clip can be sampled: its frames are timed and in order, skip no second, reach into the last of
      the five-second steps and come within a second of the end. */
  predicate Samplable(frames: seq<Frame>, duration: nat) {
    && duration > 0 && Readable(frames, LastRead(frames, duration)) && Dense(frames, StopFrom(frames, duration, 0))
    && Probed(frames, duration) >= 0 && CeilDiv(Probed(frames, duration), 5) == CeilDiv(duration, 5000)
    && duration - TimeAt(frames, LastRead(frames, duration)) <= 1000
  }

  // ----- What a pass returns -----

  /** The probe of second `k` is the first frame at or after its start, and lies within it. */
  predicate ProbesSecond(frames: seq<Frame>, duration: nat, probe: Probe, k: nat) {
    && Slot(probe.time) == k && probe.time < duration
    && exists i :: 0 <= i < |frames| && frames[i] == Frame(Some(probe.time), probe.pixels)
                   && forall j :: 0 <= j < i && frames[j].time.Some? ==> frames[j].time.value < 1000 * k
  }

  predicate AreProbes(frames: seq<Frame>, duration: nat, probes: seq<Probe>) {
    forall k :: 0 <= k < |probes| ==> ProbesSecond(frames, duration, probes[k], k) && |probes[k].pixels| == THUMBNAIL
  }

  predicate Pixels(probes: seq<Probe>) {
    forall k :: 0 <= k < |probes| ==> |probes[k].pixels| == THUMBNAIL
  }

  function AddIf<T>(s: seq<T>, x: T, add: bool): seq<T> {
    if add then s + [x] else s
  }

  /** Every fifth probe. */
  function FixedOf(probes: seq<Probe>): seq<int> {
    if probes == [] then []
    else
      var k := |probes| - 1;
      AddIf(FixedOf(probes[..k]), probes[k].time, k % 5 == 0)
  }

  /** A probe is kept when it is the first, differs from the one kept last, or comes five seconds or more
      after it. */
  predicate Keeps(kept: seq<Probe>, p: Probe)
    requires Pixels(kept) && |p.pixels| == THUMBNAIL
  {
    kept == [] || p.time - kept[|kept| - 1].time >= 5000 || Changed(kept[|kept| - 1].pixels, p.pixels)
  }

  function KeptOf(probes: seq<Probe>): (kept: seq<Probe>)
    requires Pixels(probes)
    ensures Pixels(kept) && |kept| <= |probes| && forall p :: p in kept ==> p in probes
  {
    if probes == [] then []
    else
      var before, p := KeptOf(probes[..|probes| - 1]), probes[|probes| - 1];
      AddIf(before, p, Keeps(before, p))
  }

  function TimesOf(probes: seq<Probe>): (times: seq<int>)
    ensures |times| == |probes| && forall k :: 0 <= k < |probes| ==> times[k] == probes[k].time
  {
    seq(|probes|, k requires 0 <= k < |probes| => probes[k].time)
  }

  /** The frames of either list, in order. */
  function SelectedOf(probes: seq<Probe>): seq<int>
    requires Pixels(probes)
  {
    if probes == [] then []
    else
      var init, k := probes[..|probes| - 1], |probes| - 1;
      AddIf(SelectedOf(init), probes[k].time, k % 5 == 0 || Keeps(KeptOf(init), probes[k]))
  }

  /** What a further probe adds to the three lists. */
  lemma ListsStep(probes: seq<Probe>, p: Probe)
    requires Pixels(probes) && |p.pixels| == THUMBNAIL
    ensures Pixels(probes + [p])
    ensures FixedOf(probes + [p]) == AddIf(FixedOf(probes), p.time, |probes| % 5 == 0)
    ensures KeptOf(probes + [p]) == AddIf(KeptOf(probes), p, Keeps(KeptOf(probes), p))
    ensures SelectedOf(probes + [p]) == AddIf(SelectedOf(probes), p.time, |probes| % 5 == 0 || Keeps(KeptOf(probes), p))
  {
    PixelsStep(probes, p);
    hide AddIf, Keeps, Pixels;
    assert (probes + [p])[..|probes|] == probes;
  }

  lemma PixelsStep(probes: seq<Probe>, p: Probe)
    requires Pixels(probes) && |p.pixels| == THUMBNAIL
    ensures Pixels(probes + [p])
  {
  }

  lemma {:induction false} FixedLength(probes: seq<Probe>)
    ensures |FixedOf(probes)| == CeilDiv(|probes|, 5)
    ensures forall j :: 0 <= j < |FixedOf(probes)| ==> 5 * j < |probes| && FixedOf(probes)[j] == probes[5 * j].time
  {
    if probes != [] {
      FixedLength(probes[..|probes| - 1]);
    }
  }

  // ----- The pass -----

  lemma {:induction false} StopIs(frames: seq<Frame>, duration: nat, i: nat, from: nat)
    requires from <= i <= |frames| && forall j :: from <= j < i ==> !Stops(frames, duration, j)
    ensures StopFrom(frames, duration, from) >= i
    ensures i == |frames| || Stops(frames, duration, i) ==> StopFrom(frames, duration, from) == i
    ensures i < |frames| && !Stops(frames, duration, i) ==> StopFrom(frames, duration, from) > i
    decreases i - from
  {
    if from < i { StopIs(frames, duration, i, from + 1); }
  }

  lemma {:induction false} EarlierAreBefore(frames: seq<Frame>, i: nat)
    requires i <= |frames| && Readable(frames, i - 1)
    ensures forall j :: 0 <= j < i ==> frames[j].time.Some? && frames[j].time.value <= TimeAt(frames, i - 1)
  {
    if i > 0 { EarlierAreBefore(frames, i - 1); }
  }

  /** What is known after the first `i` frames. */
  ghost predicate Progress(frames: seq<Frame>, duration: nat, i: nat, probes: seq<Probe>)
    requires i <= |frames|
  {
    && Readable(frames, i - 1) && Dense(frames, i) && (forall j :: 0 <= j < i ==> !Stops(frames, duration, j))
    && Slot(TimeAt(frames, i - 1)) + 1 == |probes| && AreProbes(frames, duration, probes)
  }

  /** A frame within the second that was probed last changes nothing. */
  lemma SkipStep(frames: seq<Frame>, duration: nat, i: nat, probes: seq<Probe>)
    requires i < |frames| && Progress(frames, duration, i, probes) && frames[i].time.Some?
    requires TimeAt(frames, i - 1) <= frames[i].time.value < 1000 * |probes|
    ensures Progress(frames, duration, i + 1, probes)
  {
    hide AreProbes;
  }

  /** The first frame of the next second is its probe. */
  lemma ProbeStep(frames: seq<Frame>, duration: nat, i: nat, probes: seq<Probe>)
    requires i < |frames| && Progress(frames, duration, i, probes) && frames[i].time.Some? && |frames[i].pixels| == THUMBNAIL
    requires TimeAt(frames, i - 1) <= frames[i].time.value < duration
    requires 1000 * |probes| <= frames[i].time.value < 1000 * |probes| + 1000
    ensures Progress(frames, duration, i + 1, probes + [Probe(frames[i].time.value, frames[i].pixels)])
    ensures AreProbes(frames, duration, probes + [Probe(frames[i].time.value, frames[i].pixels)])
  {
    EarlierAreBefore(frames, i);
    var p := Probe(frames[i].time.value, frames[i].pixels);
    assert frames[i] == Frame(Some(p.time), p.pixels);
    assert ProbesSecond(frames, duration, p, |probes|);
  }

  lemma FifthProbe(k: nat, time: int)
    requires 1000 * k <= time < 1000 * k + 1000
    ensures time >= 5000 * CeilDiv(k, 5) <==> k % 5 == 0
    ensures CeilDiv(k + 1, 5) == CeilDiv(k, 5) + if k % 5 == 0 then 1 else 0
    ensures k % 5 == 0 ==> time - 5000 * CeilDiv(k, 5) < 1000
  {
  }

  /** The frame stopped at makes a hole in the probes. */
  lemma HoleFound(frames: seq<Frame>, duration: nat, i: nat, probes: seq<Probe>)
    requires i < |frames| && Progress(frames, duration, i, probes) && frames[i].time.Some?
    requires 1000 * |probes| + 1000 <= frames[i].time.value < duration
    ensures !Samplable(frames, duration)
  {
    hide AreProbes;
    StopIs(frames, duration, i, 0);
    assert Slot(TimeAt(frames, i)) > Slot(TimeAt(frames, i - 1)) + 1;
  }

  lemma Unreadable(frames: seq<Frame>, duration: nat, i: nat, probes: seq<Probe>)
    requires i < |frames| && Progress(frames, duration, i, probes)
    requires frames[i].time.None? || frames[i].time.value < TimeAt(frames, i - 1)
    ensures !Samplable(frames, duration)
  {
    hide AreProbes;
    StopIs(frames, duration, i, 0);
    assert !Stops(frames, duration, i) && LastRead(frames, duration) >= i;
    assert Readable(frames, LastRead(frames, duration)) ==> frames[i].time.Some? && TimeAt(frames, i - 1) <= TimeAt(frames, i);
  }

  /** Where the pass ended: at the frame that stops it or after the last one. */
  lemma Ended(frames: seq<Frame>, duration: nat, i: nat, probes: seq<Probe>, previous: int)
    requires i <= |frames| && duration > 0 && Progress(frames, duration, i, probes)
    requires i < |frames| ==> frames[i].time == Some(previous) && previous >= duration && previous >= 1000 * |probes|
                              && previous >= TimeAt(frames, i - 1)
    requires i == |frames| ==> previous == TimeAt(frames, i - 1)
    ensures StopFrom(frames, duration, 0) == i && |probes| == Probed(frames, duration)
    ensures previous == TimeAt(frames, LastRead(frames, duration))
    ensures Samplable(frames, duration) <==> CeilDiv(|probes|, 5) == CeilDiv(duration, 5000) && duration - previous <= 1000
  {
    hide AreProbes;
    StopIs(frames, duration, i, 0);
  }

  /** The lists of the pass as functions of its probes. */
  ghost predicate Built(probes: seq<Probe>, s: Sampling)
    requires forall k :: 0 <= k < |probes| ==> |probes[k].pixels| == THUMBNAIL
  {
    s.fixed == FixedOf(probes) && s.changed == TimesOf(KeptOf(probes)) && s.frames == SelectedOf(probes)
  }

  /** The lists the pass is building, the picture kept last and when. */
  datatype Lists = Lists(selected: seq<int>, fixed: seq<int>, changed: seq<int>, nextFixed: int,
                         anchor: Option<seq<nat>>, lastChange: int)

  ghost predicate ListsOk(l: Lists, probes: seq<Probe>) {
    && Pixels(probes) && l.nextFixed == 5000 * CeilDiv(|probes|, 5)
    && l.fixed == FixedOf(probes) && l.changed == TimesOf(KeptOf(probes)) && l.selected == SelectedOf(probes)
    && var kept := KeptOf(probes);
       if kept == [] then l.anchor == None && l.lastChange == -5000
       else l.anchor == Some(kept[|kept| - 1].pixels) && l.lastChange == kept[|kept| - 1].time
  }

  /** Sorts one probe into the lists. Its check on the five-second step never fails. */
  method Select(l: Lists, probe: Probe, ghost probes: seq<Probe>) returns (next: Result<Lists, VideoError>)
    requires ListsOk(l, probes) && |probe.pixels| == THUMBNAIL && Slot(probe.time) == |probes|
    ensures next.Success? && ListsOk(next.value, probes + [probe])
  {
    hide FixedOf, KeptOf, SelectedOf, Changed;
    var time := probe.time;
    FifthProbe(|probes|, time);
    ListsStep(probes, probe);
    var selectFixed := time >= l.nextFixed;
    var selectChange := l.anchor.None? || time - l.lastChange >= 5000 || Changed(l.anchor.value, probe.pixels);
    if !selectFixed && !selectChange {
      return Success(l);
    }
    var m := l;
    if selectFixed {
      if time - l.nextFixed >= 1000 {
        return Failure(MissingFixed);
      }
      m := m.(fixed := m.fixed + [time], nextFixed := m.nextFixed + 5000);
    }
    if selectChange {
      m := m.(changed := m.changed + [time], anchor := Some(probe.pixels), lastChange := time);
    }
    return Success(m.(selected := m.selected + [time]));
  }

  /** The whole pass. */
  method SampleVideo(frames: seq<Frame>, duration: nat)
    returns (result: Result<Sampling, VideoError>, ghost probes: seq<Probe>)
    requires Thumbnails(frames)
    ensures result.Success? <==> Samplable(frames, duration)
    ensures result.Failure? ==> result.error != MissingFixed
    ensures AreProbes(frames, duration, probes)
    ensures result.Success? ==>
              && |probes| == Probed(frames, duration) && Built(probes, result.value)
              && result.value.unavailable == (if 1000 * |probes| < duration then Some(1000 * |probes|) else None)
              && result.value.lastDecoded == TimeAt(frames, LastRead(frames, duration))
  {
    hide Progress, Samplable, AreProbes, ListsOk, Built, StopFrom, Stops, Readable, Dense, Probed, LastRead;
    probes := [];
    var lists := Lists([], [], [], 0, None, -5000);
    NothingYet(frames, duration, lists);
    if duration <= 0 {
      NeedsDuration(frames, duration);
      return Failure(NoDuration), probes;
    }
    var nextProbe := 0;
    var previous := -1;
    var i := 0;
    while i < |frames|
      invariant 0 <= i <= |frames| && Progress(frames, duration, i, probes) && AreProbes(frames, duration, probes)
      invariant previous == TimeAt(frames, i - 1) && nextProbe == 1000 * |probes| && ListsOk(lists, probes)
    {
      var frame := frames[i];
      if frame.time.None? {
        Unreadable(frames, duration, i, probes);
        return Failure(MissingTime), probes;
      }
      var time := frame.time.value;
      if time < previous {
        Unreadable(frames, duration, i, probes);
        return Failure(Nonmonotonic), probes;
      }
      previous := time;
      if time < nextProbe {
        SkipStep(frames, duration, i, probes);
        i := i + 1;
        continue;
      }
      if time >= duration {
        break;
      }
      if time - nextProbe >= 1000 {
        HoleFound(frames, duration, i, probes);
        return Failure(MissingProbe), probes;
      }
      nextProbe := nextProbe + 1000;
      var probe := Probe(time, frame.pixels);
      ProbeStep(frames, duration, i, probes);
      var next := Select(lists, probe, probes);
      probes := probes + [probe];
      if next.Failure? {
        return Failure(MissingFixed), probes;
      }
      lists := next.value;
      i := i + 1;
    }
    Ended(frames, duration, i, probes, previous);
    FixedLists(lists, probes);
    if |lists.fixed| != CeilDiv(duration, 5000) {
      return Failure(IncompleteFixed), probes;
    }
    if duration - previous > 1000 {
      return Failure(IncompleteProbes), probes;
    }
    var missing := if nextProbe < duration then Some(nextProbe) else None;
    var sampling := Sampling(lists.selected, lists.fixed, lists.changed, missing, previous);
    BuiltFromLists(lists, probes, sampling);
    return Success(sampling), probes;
  }

  lemma NeedsDuration(frames: seq<Frame>, duration: nat)
    ensures duration == 0 ==> !Samplable(frames, duration)
  {
  }

  lemma BuiltFromLists(l: Lists, probes: seq<Probe>, s: Sampling)
    requires ListsOk(l, probes) && s.frames == l.selected && s.fixed == l.fixed && s.changed == l.changed
    ensures Pixels(probes) && Built(probes, s)
  {
  }

  lemma FixedLists(l: Lists, probes: seq<Probe>)
    requires ListsOk(l, probes)
    ensures |l.fixed| == CeilDiv(|probes|, 5) && Pixels(probes)
  {
    FixedLength(probes);
  }

  lemma NothingYet(frames: seq<Frame>, duration: nat, l: Lists)
    requires l == Lists([], [], [], 0, None, -5000)
    ensures Progress(frames, duration, 0, []) && AreProbes(frames, duration, []) && ListsOk(l, [])
  {
  }

  // ----- What every accepted pass satisfies -----

  predicate Increasing(times: seq<int>) {
    forall i, j :: 0 <= i < j < |times| ==> times[i] < times[j]
  }

  /** Probes of consecutive seconds. */
  predicate Spaced(probes: seq<Probe>) {
    forall k :: 0 <= k < |probes| ==> Slot(probes[k].time) == k
  }

  lemma ProbesAreSpaced(frames: seq<Frame>, duration: nat, probes: seq<Probe>)
    requires AreProbes(frames, duration, probes)
    ensures Pixels(probes) && Spaced(probes) && forall k :: 0 <= k < |probes| ==> 0 <= probes[k].time < duration
  {
    forall k | 0 <= k < |probes| ensures Slot(probes[k].time) == k && probes[k].time < duration {
      assert ProbesSecond(frames, duration, probes[k], k);
    }
  }

  /** One five-second sample in each step, within a second of its start, and none besides. */
  lemma FixedCadence(frames: seq<Frame>, duration: nat, probes: seq<Probe>, s: Sampling)
    requires AreProbes(frames, duration, probes) && Samplable(frames, duration)
    requires |probes| == Probed(frames, duration) && Pixels(probes) && Built(probes, s)
    ensures |s.fixed| == CeilDiv(duration, 5000)
    ensures forall j :: 0 <= j < |s.fixed| ==> 5000 * j <= s.fixed[j] < 5000 * j + 1000
    ensures Increasing(s.fixed)
  {
    hide Readable, Dense, StopFrom, AreProbes;
    ProbesAreSpaced(frames, duration, probes);
    FixedLength(probes);
  }

  /** Kept frames begin with this one, follow each other in less than seven seconds and reach to within
      five seconds of the latest probe. */
  predicate WellKept(kept: seq<Probe>, first: Probe, latest: int) {
    && kept != [] && kept[0] == first && kept[|kept| - 1].time <= latest < kept[|kept| - 1].time + 5000
    && forall k :: 0 < k < |kept| ==> kept[k - 1].time < kept[k].time < kept[k - 1].time + 7000
  }

  lemma WellKeptStep(kept: seq<Probe>, first: Probe, latest: int, p: Probe, keep: bool)
    requires WellKept(kept, first, latest) && latest < p.time < latest + 2000
    requires p.time - kept[|kept| - 1].time >= 5000 ==> keep
    ensures WellKept(AddIf(kept, p, keep), first, p.time)
  {
    if keep {
      var more := kept + [p];
      forall k | 0 < k < |more| ensures more[k - 1].time < more[k].time < more[k - 1].time + 7000 {
        assert k < |kept| ==> more[k] == kept[k] && more[k - 1] == kept[k - 1];
      }
    }
  }

  lemma KeptEndsStep(init: seq<Probe>, p: Probe, first: Probe, latest: int)
    requires Pixels(init) && |p.pixels| == THUMBNAIL && WellKept(KeptOf(init), first, latest)
    requires latest < p.time < latest + 2000
    ensures Pixels(init + [p]) && WellKept(KeptOf(init + [p]), first, p.time)
  {
    hide KeptOf, FixedOf, SelectedOf, AddIf, Changed;
    ListsStep(init, p);
    var kept := KeptOf(init);
    hide WellKept;
    WellKeptStep(kept, first, latest, p, Keeps(kept, p));
  }

  lemma {:induction false} KeptEnds(probes: seq<Probe>)
    requires Pixels(probes) && Spaced(probes) && probes != []
    ensures WellKept(KeptOf(probes), probes[0], probes[|probes| - 1].time)
  {
    var n := |probes| - 1;
    var init, p := probes[..n], probes[n];
    assert probes == init + [p];
    if n > 0 {
      assert Pixels(init) && |p.pixels| == THUMBNAIL;
      hide KeptOf, WellKept, Pixels;
      KeptEnds(init);
      KeptEndsStep(init, p, probes[0], probes[n - 1].time);
    } else {
      hide KeptOf, WellKept;
      FirstIsKept(p);
    }
  }

  lemma FirstIsKept(p: Probe)
    requires |p.pixels| == THUMBNAIL
    ensures Pixels([p]) && WellKept(KeptOf([p]), p, p.time)
  {
    hide Changed;
    assert [p][..0] == [];
    assert KeptOf([p]) == [p];
  }

  lemma {:induction false} StepsIncrease(kept: seq<Probe>, i: nat, j: nat)
    requires i < j < |kept| && forall k :: 0 < k < |kept| ==> kept[k - 1].time < kept[k].time
    ensures kept[i].time < kept[j].time
  {
    if i + 1 < j { StepsIncrease(kept, i, j - 1); }
    assert kept[j - 1].time < kept[j].time;
  }

  /** A probe is in the changed list exactly when the rule keeps it behind the list so far. */
  lemma {:induction false} KeptWhen(probes: seq<Probe>, k: nat)
    requires Pixels(probes) && Spaced(probes) && k < |probes|
    ensures Pixels(probes[..k]) && (probes[k].time in TimesOf(KeptOf(probes)) <==> Keeps(KeptOf(probes[..k]), probes[k]))
    decreases |probes|
  {
    hide KeptOf, Keeps, Changed, AddIf;
    var n := |probes| - 1;
    var init, p := probes[..n], probes[n];
    assert probes == init + [p] && Pixels(init);
    ListsStep(init, p);
    TimesMore(KeptOf(init), p, Keeps(KeptOf(init), p));
    AddedIn(TimesOf(KeptOf(init)), p.time, Keeps(KeptOf(init), p));
    if k < n {
      KeptWhen(init, k);
      assert init[..k] == probes[..k];
    } else {
      forall t | t in TimesOf(KeptOf(init)) ensures t != p.time {
        var i :| 0 <= i < |KeptOf(init)| && KeptOf(init)[i].time == t;
        assert KeptOf(init)[i] in init;
        var j :| 0 <= j < |init| && init[j] == KeptOf(init)[i];
        assert probes[j] == init[j];
      }
    }
  }

  lemma AddedIn(s: seq<int>, x: int, add: bool)
    ensures forall t :: t in AddIf(s, x, add) <==> t in s || (add && t == x)
  {
  }

  /** The probe kept last, and no later one is in the list. */
  ghost predicate LastKept(probes: seq<Probe>, changed: seq<int>, k: nat, j: nat) {
    && j < k <= |probes| && probes[j].time in changed
    && forall i :: j < i < k ==> probes[i].time !in changed
  }

  lemma {:induction false} LastIsLastKept(probes: seq<Probe>)
    requires Pixels(probes) && Spaced(probes) && probes != []
    ensures var kept := KeptOf(probes);
            kept != [] && exists j: nat :: LastKept(probes, TimesOf(kept), |probes|, j) && probes[j] == kept[|kept| - 1]
  {
    hide KeptOf, Keeps, Changed;
    var n := |probes| - 1;
    var init, p := probes[..n], probes[n];
    assert probes == init + [p] && Pixels(init);
    ListsStep(init, p);
    KeptWhen(probes, n);
    var kept := KeptOf(probes);
    if Keeps(KeptOf(init), p) {
      assert LastKept(probes, TimesOf(kept), |probes|, n);
    } else {
      NothingToKeepBehind(init, p);
      LastIsLastKept(init);
      hide Spaced, Pixels;
      var j: nat :| LastKept(init, TimesOf(kept), n, j) && init[j] == kept[|kept| - 1];
      StillLastKept(init, p, TimesOf(kept), j);
    }
  }

  lemma StillLastKept(init: seq<Probe>, p: Probe, times: seq<int>, j: nat)
    requires LastKept(init, times, |init|, j) && p.time !in times
    ensures LastKept(init + [p], times, |init| + 1, j) && (init + [p])[j] == init[j]
  {
  }

  lemma NothingToKeepBehind(init: seq<Probe>, p: Probe)
    requires Pixels(init) && |p.pixels| == THUMBNAIL && !Keeps(KeptOf(init), p)
    ensures init != []
  {
  }

  /** Of the probes after the first, exactly those are in the changed list that differ from the probe
      kept before them or come five seconds or more after it. */
  lemma ChangedExactly(frames: seq<Frame>, duration: nat, probes: seq<Probe>, s: Sampling, k: nat)
    requires AreProbes(frames, duration, probes) && Pixels(probes) && Built(probes, s) && 0 < k < |probes|
    ensures exists j: nat :: LastKept(probes, s.changed, k, j)
              && (probes[k].time in s.changed <==>
                    probes[k].time - probes[j].time >= 5000 || Changed(probes[j].pixels, probes[k].pixels))
  {
    hide AreProbes, KeptOf, Changed;
    ProbesAreSpaced(frames, duration, probes);
    var init := probes[..k];
    assert Spaced(init) && Pixels(init);
    KeptWhen(probes, k);
    LastIsLastKept(init);
    var kept := KeptOf(init);
    var j: nat :| LastKept(init, TimesOf(kept), k, j) && init[j] == kept[|kept| - 1];
    forall i | 0 <= i < k ensures probes[i].time in s.changed <==> init[i].time in TimesOf(kept) {
      KeptWhen(probes, i);
      KeptWhen(init, i);
      assert init[..i] == probes[..i];
    }
    assert LastKept(probes, s.changed, k, j);
  }

  /** Frames kept for a change follow each other in less than seven seconds, starting with the first probe. */
  lemma ChangedGaps(frames: seq<Frame>, duration: nat, probes: seq<Probe>, s: Sampling)
    requires AreProbes(frames, duration, probes) && probes != [] && Pixels(probes) && Built(probes, s)
    ensures Increasing(s.changed) && s.changed != [] && s.changed[0] == probes[0].time
    ensures forall k :: 0 < k < |s.changed| ==> s.changed[k] - s.changed[k - 1] < 7000
    ensures forall t :: t in s.changed ==> 0 <= t < duration
  {
    hide AreProbes;
    ProbesAreSpaced(frames, duration, probes);
    KeptEnds(probes);
    hide KeptOf;
    forall i, j | 0 <= i < j < |s.changed| ensures s.changed[i] < s.changed[j] { StepsIncrease(KeptOf(probes), i, j); }
    assert forall p :: p in KeptOf(probes) ==> p in probes;
    forall t | t in s.changed ensures 0 <= t < duration {
      var k :| 0 <= k < |s.changed| && s.changed[k] == t;
      assert KeptOf(probes)[k] in KeptOf(probes);
    }
  }

  /** A list in order that holds exactly what two others hold. */
  ghost predicate Merges(both: seq<int>, one: seq<int>, other: seq<int>) {
    Increasing(both) && forall t :: t in both <==> t in one || t in other
  }

  predicate ProbedAt(probes: seq<Probe>, t: int) {
    exists k :: 0 <= k < |probes| && probes[k].time == t
  }

  ghost predicate AllProbed(probes: seq<Probe>, times: seq<int>) {
    forall t :: t in times ==> ProbedAt(probes, t)
  }

  lemma MergesMore(both: seq<int>, one: seq<int>, other: seq<int>, t: int, toOne: bool, toOther: bool)
    requires Merges(both, one, other) && forall x :: x in both ==> x < t
    ensures Merges(AddIf(both, t, toOne || toOther), AddIf(one, t, toOne), AddIf(other, t, toOther))
  {
    assert forall k :: 0 <= k < |both| ==> both[k] in both;
  }

  lemma ProbedMore(init: seq<Probe>, p: Probe, times: seq<int>)
    requires AllProbed(init, times) && Spaced(init + [p])
    ensures AllProbed(init + [p], times) && AllProbed(init + [p], times + [p.time]) && forall t :: t in times ==> t < p.time
  {
    var probes := init + [p];
    assert probes[|init|] == p;
    forall t | t in times ensures ProbedAt(probes, t) && t < p.time {
      assert ProbedAt(init, t);
      var k :| 0 <= k < |init| && init[k].time == t;
      assert probes[k] == init[k];
    }
  }

  lemma TimesMore(kept: seq<Probe>, p: Probe, keep: bool)
    ensures TimesOf(AddIf(kept, p, keep)) == AddIf(TimesOf(kept), p.time, keep)
  {
  }

  lemma {:induction false} SelectedIsBoth(probes: seq<Probe>)
    requires Pixels(probes) && Spaced(probes)
    ensures Merges(SelectedOf(probes), FixedOf(probes), TimesOf(KeptOf(probes))) && AllProbed(probes, SelectedOf(probes))
  {
    if probes != [] {
      hide SelectedOf, FixedOf, KeptOf, Merges, AllProbed, Keeps;
      var n := |probes| - 1;
      var init, p := probes[..n], probes[n];
      assert probes == init + [p];
      SelectedIsBoth(init);
      ListsStep(init, p);
      var keep := Keeps(KeptOf(init), p);
      TimesMore(KeptOf(init), p, keep);
      ProbedMore(init, p, SelectedOf(init));
      MergesMore(SelectedOf(init), FixedOf(init), TimesOf(KeptOf(init)), p.time, n % 5 == 0, keep);
    } else {
      NothingSelected();
    }
  }

  lemma NothingSelected()
    ensures Merges(SelectedOf([]), FixedOf([]), TimesOf(KeptOf([]))) && AllProbed([], SelectedOf([]))
  {
  }

  /** The frames kept are exactly those of either list, each once and in order, all decoded and in the clip. */
  lemma FramesAreDistinct(frames: seq<Frame>, duration: nat, probes: seq<Probe>, s: Sampling)
    requires AreProbes(frames, duration, probes) && Pixels(probes) && Built(probes, s)
    ensures Increasing(s.frames) && forall t :: t in s.frames <==> t in s.fixed || t in s.changed
    ensures forall t :: t in s.frames ==> 0 <= t < duration && exists f :: f in frames && f.time == Some(t)
  {
    ProbesAreSpaced(frames, duration, probes);
    SelectedIsBoth(probes);
    forall t | t in s.frames ensures 0 <= t < duration && exists f :: f in frames && f.time == Some(t) {
      assert ProbedAt(probes, t);
      var k :| 0 <= k < |probes| && probes[k].time == t;
      assert ProbesSecond(frames, duration, probes[k], k);
    }
  }

  // ----- The scorer's check -----

  predicate AllDifferent(ids: seq<int>) {
    forall i, j :: 0 <= i < j < |ids| ==> ids[i] != ids[j]
  }

  /** What the scorer demands of the two lists: known frames, no repeats, and one five-second sample per
      step within the tolerance. */
  predicate PassesCadence(frames: seq<int>, fixed: seq<int>, changed: seq<int>, duration: nat, tolerance: nat) {
    && AllDifferent(changed) && (forall t :: t in changed ==> t in frames)
    && |fixed| == CeilDiv(duration, 5000) && AllDifferent(fixed) && (forall t :: t in fixed ==> t in frames)
    && forall j :: 0 <= j < |fixed| ==> 5000 * j <= fixed[j] <= 5000 * j + tolerance
  }

  /** Every accepted pass satisfies the scorer with a tolerance of 999 milliseconds. */
  lemma SampledPassesCadence(frames: seq<Frame>, duration: nat, probes: seq<Probe>, s: Sampling)
    requires AreProbes(frames, duration, probes) && Samplable(frames, duration)
    requires |probes| == Probed(frames, duration) && Pixels(probes) && Built(probes, s)
    ensures PassesCadence(s.frames, s.fixed, s.changed, duration, 999)
  {
    assert |probes| > 0;
    hide AreProbes, Samplable, Built, Probed;
    FixedCadence(frames, duration, probes, s);
    FramesAreDistinct(frames, duration, probes, s);
    ChangedGaps(frames, duration, probes, s);
  }

  // ----- Missing probes -----

  /** Seconds of the clip that were never probed. */
  function Missed(frames: seq<Frame>, duration: nat): int {
    CeilDiv(duration, 1000) - Probed(frames, duration)
  }

  /** At most four seconds stay without a probe, and at most one exactly when the last frame before
      decoding stopped lies in one of the last two seconds of the clip; the check of the last decoded
      frame, which may lie past the end, does not ensure that. */
  lemma MissedSeconds(frames: seq<Frame>, duration: nat)
    requires Samplable(frames, duration)
    ensures Missed(frames, duration) <= 4
    ensures Missed(frames, duration) <= 1 <==>
            Slot(TimeAt(frames, StopFrom(frames, duration, 0) - 1)) >= Slot(duration - 1) - 1
    ensures StopFrom(frames, duration, 0) == |frames| ==> Missed(frames, duration) <= 1
  {
    hide Readable, Dense, StopFrom;
  }

  /** A frame at zero and one at the end of a five-second clip are accepted; four seconds were not probed. */
  lemma FourSecondsMissed(grey: seq<nat>)
    ensures var frames := [Frame(Some(0), grey), Frame(Some(5000), grey)];
            Samplable(frames, 5000) && Missed(frames, 5000) == 4
  {
    var frames := [Frame(Some(0), grey), Frame(Some(5000), grey)];
    assert Stops(frames, 5000, 1) && !Stops(frames, 5000, 0);
    StopIs(frames, 5000, 1, 0);
  }
}
