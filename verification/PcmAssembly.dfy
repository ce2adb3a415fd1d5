/** Decoded audio is placed on the media clock in one zero-filled buffer of 16 kHz 16-bit samples.
    Decoding, resampling and the rounding of time stamps to samples are not modelled. */
module PcmAssembly {
  import opened Wrappers
  import opened Numbers

  /** A decoded frame: its rounded position in samples, if it has a time stamp, and two bytes a sample. */
  datatype Frame = Frame(position: Option<int>, raw: seq<byte>)

  datatype AudioError = MissingTimestamp | Overlap | NoSamples | Discontinuity

  predicate WholeSamples(frames: seq<Frame>) {
    forall i :: 0 <= i < |frames| ==> |frames[i].raw| % 2 == 0
  }

  function Samples(f: Frame): nat {
    |f.raw| / 2
  }

  /** Where the part of a timed frame inside the media clock starts, and where the frame ends. */
  function From(f: Frame): int
    requires f.position.Some?
  {
    Max(f.position.value, 0)
  }

  function To(f: Frame): int
    requires f.position.Some?
  {
    f.position.value + Samples(f)
  }

  predicate Sounds(f: Frame) {
    f.position.Some? && From(f) < To(f)
  }

  /** Every frame is timed, and those that reach into the media follow each other without overlap. */
  predicate WellPlaced(frames: seq<Frame>) {
    && (forall i :: 0 <= i < |frames| ==> frames[i].position.Some?)
    && (forall i, j :: 0 <= i < j < |frames| && Sounds(frames[i]) && Sounds(frames[j]) ==> To(frames[i]) <= From(frames[j]))
  }

  predicate Covers(f: Frame, at: int) {
    f.position.Some? && f.position.value <= at < To(f)
  }

  predicate Covered(frames: seq<Frame>, at: int) {
    exists i :: 0 <= i < |frames| && Covers(frames[i], at)
  }

  // ----- Counting samples -----

  /** Sample places from `lo` up to `hi` that no frame covers. */
  function Uncovered(frames: seq<Frame>, lo: int, hi: int): nat
    decreases hi - lo
  {
    if lo >= hi then 0 else Uncovered(frames, lo, hi - 1) + if Covered(frames, hi - 1) then 0 else 1
  }

  /** The first `n` samples of a frame that lie on a place of the buffer. */
  function Placed(position: int, n: nat, limit: nat): nat {
    if n == 0 then 0 else Placed(position, n - 1, limit) + if 0 <= position + n - 1 < limit then 1 else 0
  }

  function Decoded(frames: seq<Frame>): nat {
    if frames == [] then 0 else Decoded(frames[..|frames| - 1]) + Samples(frames[|frames| - 1])
  }

  /** Samples of all frames that lie on a place of the buffer. */
  function Copied(frames: seq<Frame>, limit: nat): nat
    requires forall i :: 0 <= i < |frames| ==> frames[i].position.Some?
  {
    if frames == [] then 0
    else
      var f := frames[|frames| - 1];
      Copied(frames[..|frames| - 1], limit) + Placed(f.position.value, Samples(f), limit)
  }

  lemma {:induction false} PlacedIs(position: int, n: nat, limit: nat)
    ensures Placed(position, n, limit) == Max(0, Min(position + n, limit) - Max(position, 0))
  {
    if n > 0 { PlacedIs(position, n - 1, limit); }
  }

  lemma {:induction false} UncoveredSplits(frames: seq<Frame>, lo: int, mid: int, hi: int)
    requires lo <= mid <= hi
    ensures Uncovered(frames, lo, hi) == Uncovered(frames, lo, mid) + Uncovered(frames, mid, hi)
    decreases hi - mid
  {
    if mid < hi { UncoveredSplits(frames, lo, mid, hi - 1); }
  }

  lemma {:induction false} NoneCovered(frames: seq<Frame>, lo: int, hi: int)
    requires lo <= hi && forall at :: lo <= at < hi ==> !Covered(frames, at)
    ensures Uncovered(frames, lo, hi) == hi - lo
    decreases hi - lo
  {
    if lo < hi { NoneCovered(frames, lo, hi - 1); }
  }

  lemma {:induction false} AllCovered(frames: seq<Frame>, lo: int, hi: int)
    requires forall at :: lo <= at < hi ==> Covered(frames, at)
    ensures Uncovered(frames, lo, hi) == 0
    decreases hi - lo
  {
    if lo < hi { AllCovered(frames, lo, hi - 1); }
  }

  lemma {:induction false} SameCovered(frames: seq<Frame>, more: seq<Frame>, lo: int, hi: int)
    requires forall at :: lo <= at < hi ==> (Covered(frames, at) <==> Covered(more, at))
    ensures Uncovered(frames, lo, hi) == Uncovered(more, lo, hi)
    decreases hi - lo
  {
    if lo < hi { SameCovered(frames, more, lo, hi - 1); }
  }

  lemma CoveredMore(frames: seq<Frame>, f: Frame, at: int)
    ensures Covered(frames + [f], at) <==> Covered(frames, at) || Covers(f, at)
  {
    var more := frames + [f];
    if Covered(frames, at) {
      var i :| 0 <= i < |frames| && Covers(frames[i], at);
      assert more[i] == frames[i];
    }
    if Covers(f, at) { assert more[|frames|] == f; }
  }

  // ----- The buffer -----

  /** The byte is the covering frame's own byte for its place, or zero where no frame reaches. */
  ghost predicate ByteOk(pcm: seq<byte>, frames: seq<Frame>, b: nat)
    requires b < |pcm|
  {
    && (forall i :: 0 <= i < |frames| && Covers(frames[i], b / 2) ==>
          0 <= b - 2 * frames[i].position.value < |frames[i].raw| && pcm[b] == frames[i].raw[b - 2 * frames[i].position.value])
    && (!Covered(frames, b / 2) ==> pcm[b] == 0)
  }

  ghost predicate Faithful(pcm: seq<byte>, frames: seq<Frame>) {
    forall b: nat :: b < |pcm| ==> ByteOk(pcm, frames, b)
  }

  /** The frames so far end at or before the cursor, which is the end of the last that sounds. */
  ghost predicate EndsAt(frames: seq<Frame>, cursor: nat) {
    && (forall i :: 0 <= i < |frames| && Sounds(frames[i]) ==> To(frames[i]) <= cursor)
    && (cursor > 0 ==> exists i :: 0 <= i < |frames| && Sounds(frames[i]) && To(frames[i]) == cursor)
  }

  lemma Silence(pcm: seq<byte>)
    requires forall b :: 0 <= b < |pcm| ==> pcm[b] == 0
    ensures Faithful(pcm, [])
  {
  }

  lemma Nothing(limit: nat)
    ensures WellPlaced([]) && EndsAt([], 0) && Uncovered([], 0, Min(0, limit)) == 0 && Copied([], limit) == 0 == Decoded([])
  {
  }

  lemma CoveredBeforeCursor(frames: seq<Frame>, cursor: nat, at: int)
    requires EndsAt(frames, cursor) && 0 <= at && Covered(frames, at)
    ensures at < cursor
  {
    var i :| 0 <= i < |frames| && Covers(frames[i], at);
    assert Sounds(frames[i]);
  }

  /** A frame that does not reach into the media covers no place of it. */
  lemma SilentFrame(frames: seq<Frame>, f: Frame, limit: nat, cursor: nat)
    requires f.position.Some? && !Sounds(f) && EndsAt(frames, cursor)
    ensures forall at :: 0 <= at ==> (Covered(frames + [f], at) <==> Covered(frames, at))
    ensures Uncovered(frames + [f], 0, Min(cursor, limit)) == Uncovered(frames, 0, Min(cursor, limit))
    ensures Placed(f.position.value, Samples(f), limit) == 0 && EndsAt(frames + [f], cursor)
  {
    var more := frames + [f];
    forall at | 0 <= at ensures Covered(more, at) <==> Covered(frames, at) { CoveredMore(frames, f, at); }
    SameCovered(frames, more, 0, Min(cursor, limit));
    PlacedIs(f.position.value, Samples(f), limit);
    EndsMore(frames, f, cursor, cursor);
  }

  lemma EndsMore(frames: seq<Frame>, f: Frame, cursor: nat, next: nat)
    requires EndsAt(frames, cursor) && next >= cursor
    requires if Sounds(f) then next == To(f) else next == cursor
    ensures EndsAt(frames + [f], next)
  {
    var more := frames + [f];
    if Sounds(f) {
      assert more[|frames|] == f;
    } else if cursor > 0 {
      var i :| 0 <= i < |frames| && Sounds(frames[i]) && To(frames[i]) == cursor;
      assert more[i] == frames[i];
    }
  }

  /** What a frame that reaches into the media adds to the counts. */
  lemma SoundingFrame(frames: seq<Frame>, f: Frame, limit: nat, cursor: nat)
    requires Sounds(f) && EndsAt(frames, cursor) && cursor <= From(f)
    ensures Uncovered(frames + [f], 0, Min(To(f), limit)) ==
            Uncovered(frames, 0, Min(cursor, limit)) + Max(0, Min(From(f), limit) - Min(cursor, limit))
    ensures EndsAt(frames + [f], To(f))
  {
    hide Uncovered, EndsAt;
    var more := frames + [f];
    var a, b, c := Min(cursor, limit), Min(From(f), limit), Min(To(f), limit);
    forall at | 0 <= at ensures Covered(more, at) <==> (Covered(frames, at) && at < cursor) || From(f) <= at < To(f) {
      CoveredMore(frames, f, at);
      if Covered(frames, at) { CoveredBeforeCursor(frames, cursor, at); }
    }
    SameCovered(frames, more, 0, a);
    NoneCovered(more, a, b);
    AllCovered(more, b, c);
    UncoveredSplits(more, 0, a, b);
    UncoveredSplits(more, 0, b, c);
    EndsMore(frames, f, cursor, To(f));
  }

  lemma FaithfulStep(before: seq<byte>, after: seq<byte>, frames: seq<Frame>, f: Frame, cursor: nat)
    requires Faithful(before, frames) && |after| == |before| && |before| % 2 == 0 && |f.raw| % 2 == 0
    requires f.position.Some? && EndsAt(frames, cursor) && (Sounds(f) ==> cursor <= From(f))
    requires forall b :: 0 <= b < |after| ==>
               after[b] == if Covers(f, b / 2) then f.raw[b - 2 * f.position.value] else before[b]
    ensures Faithful(after, frames + [f])
  {
    hide EndsAt;
    forall b: nat | b < |after| ensures ByteOk(after, frames + [f], b) {
      assert ByteOk(before, frames, b);
      CoveredMore(frames, f, b / 2);
      if Covered(frames, b / 2) {
        CoveredBeforeCursor(frames, cursor, b / 2);
        assert !Covers(f, b / 2) by { assert Covers(f, b / 2) ==> Sounds(f); }
        ByteKept(before, after, frames, f, b);
      } else {
        ByteAdded(after, frames, f, b);
      }
    }
  }

  lemma ByteKept(before: seq<byte>, after: seq<byte>, frames: seq<Frame>, f: Frame, b: nat)
    requires b < |before| == |after| && after[b] == before[b] && ByteOk(before, frames, b)
    requires Covered(frames, b / 2) && !Covers(f, b / 2)
    ensures ByteOk(after, frames + [f], b)
  {
    CoveredMore(frames, f, b / 2);
    assert forall i :: 0 <= i < |frames| ==> (frames + [f])[i] == frames[i];
  }

  lemma ByteAdded(after: seq<byte>, frames: seq<Frame>, f: Frame, b: nat)
    requires b < |after| && !Covered(frames, b / 2) && |f.raw| % 2 == 0
    requires if Covers(f, b / 2) then after[b] == f.raw[b - 2 * f.position.value] else after[b] == 0
    ensures ByteOk(after, frames + [f], b)
  {
    CoveredMore(frames, f, b / 2);
    assert forall i :: 0 <= i < |frames| ==> (frames + [f])[i] == frames[i] && !Covers(frames[i], b / 2);
  }

  lemma SilentFaithful(pcm: seq<byte>, frames: seq<Frame>, f: Frame, cursor: nat)
    requires Faithful(pcm, frames) && |pcm| % 2 == 0 && |f.raw| % 2 == 0 && EndsAt(frames, cursor)
    requires f.position.Some? && !Sounds(f)
    ensures Faithful(pcm, frames + [f])
  {
    hide EndsAt, Faithful;
    FaithfulStep(pcm, pcm, frames, f, cursor);
  }

  lemma PlacedMore(frames: seq<Frame>, f: Frame, cursor: nat)
    requires WellPlaced(frames) && EndsAt(frames, cursor)
    ensures WellPlaced(frames + [f]) <==> f.position.Some? && (Sounds(f) ==> cursor <= From(f))
  {
    var more := frames + [f];
    if WellPlaced(more) {
      assert more[|frames|] == f;
      if Sounds(f) && cursor > 0 {
        var i :| 0 <= i < |frames| && Sounds(frames[i]) && To(frames[i]) == cursor;
        assert more[i] == frames[i];
      }
    }
  }

  lemma CountsMore(frames: seq<Frame>, f: Frame, limit: nat)
    requires WellPlaced(frames) && f.position.Some?
    ensures WellPlaced(frames + [f]) ==> Copied(frames + [f], limit) == Copied(frames, limit) + Placed(f.position.value, Samples(f), limit)
    ensures Decoded(frames + [f]) == Decoded(frames) + Samples(f)
  {
    assert (frames + [f])[..|frames|] == frames;
  }

  /** Drops the samples of a timed frame that lie before the media. */
  method Trim(frame: Frame) returns (discard: nat, position: int, raw: seq<byte>)
    requires frame.position.Some? && |frame.raw| % 2 == 0
    ensures discard <= Samples(frame) && |raw| == 2 * (Samples(frame) - discard)
    ensures position == frame.position.value + discard && raw == frame.raw[2 * discard..]
    ensures raw != [] <==> Sounds(frame)
    ensures Sounds(frame) ==> position == From(frame) && position + |raw| / 2 == To(frame)
    ensures !Sounds(frame) ==> discard == Samples(frame)
  {
    discard, position, raw := 0, frame.position.value, frame.raw;
    if position < 0 {
      discard := Min(-position, Samples(frame));
      raw := raw[2 * discard..];
      position := position + discard;
    }
  }

  lemma EvenBytes(durationMs: nat)
    ensures durationMs * 32 % 2 == 0 && durationMs * 32 / 2 == durationMs * 16
  {
  }

  class Assembler {
    const pcm: array<byte>
    var cursor: nat
    var gaps: nat
    var clipped: nat
    ghost var consumed: seq<Frame>

    ghost predicate Valid()
      reads this, pcm
    {
      && pcm.Length % 2 == 0 && WellPlaced(consumed) && EndsAt(consumed, cursor) && Faithful(pcm[..], consumed)
      && gaps == Uncovered(consumed, 0, Min(cursor, pcm.Length / 2))
      && clipped + Copied(consumed, pcm.Length / 2) == Decoded(consumed)
    }

    constructor (durationMs: nat)
      ensures Valid() && fresh(pcm) && pcm.Length == 32 * durationMs && consumed == []
    {
      hide Faithful, EndsAt, Uncovered, Copied, Decoded, WellPlaced;
      EvenBytes(durationMs);
      pcm := new byte[durationMs * 32](_ => 0);
      cursor, gaps, clipped, consumed := 0, 0, 0, [];
      new;
      Silence(pcm[..]);
      Nothing(pcm.Length / 2);
    }
  
    /** Places one frame of the resampler; what lies outside the media is counted and dropped. */
    method Consume(frame: Frame) returns (error: Option<AudioError>)
      requires Valid() && |frame.raw| % 2 == 0
      modifies this, pcm
      ensures error.None? <==> WellPlaced(old(consumed) + [frame])
      ensures error.None? ==> Valid() && consumed == old(consumed) + [frame]
      ensures error.Some? ==> error.value == if frame.position.None? then MissingTimestamp else Overlap
    {
      hide WellPlaced, EndsAt, Faithful, Uncovered, Placed, Copied, Decoded, Covers, Covered;
      ghost var frames, before := consumed, pcm[..];
      PlacedMore(frames, frame, cursor);
      if frame.position.None? {
        return Some(MissingTimestamp);
      }
      var limit := pcm.Length / 2;
      CountsMore(frames, frame, limit);
      PlacedIs(frame.position.value, Samples(frame), limit);
      var discard, position, raw := Trim(frame);
      clipped := clipped + discard;
      if raw == [] {
        SilentFrame(frames, frame, limit, cursor);
        SilentFaithful(before, frames, frame, cursor);
        consumed := consumed + [frame];
        return None;
      }
      if position < cursor {
        return Some(Overlap);
      }
      SoundingFrame(frames, frame, limit, cursor);
      gaps := gaps + Max(0, Min(position, limit) - Min(cursor, limit));
      var count := Min(|raw| / 2, Max(0, limit - position));
      clipped := clipped + (|raw| / 2 - count);
      forall k | 0 <= k < 2 * count {
        pcm[2 * position + k] := raw[k];
      }
      WrittenFaithful(before, pcm[..], frames, frame, raw, position, count, cursor);
      cursor := position + |raw| / 2;
      consumed := consumed + [frame];
      return None;
    }
  }

  lemma WrittenFaithful(before: seq<byte>, after: seq<byte>, frames: seq<Frame>, f: Frame, raw: seq<byte>, position: nat,
                        count: nat, cursor: nat)
    requires Faithful(before, frames) && EndsAt(frames, cursor) && cursor <= position
    requires |after| == |before| && |before| % 2 == 0 && |f.raw| % 2 == 0 && Sounds(f) && position == From(f)
    requires raw == f.raw[2 * (position - f.position.value)..] && count == Min(|raw| / 2, Max(0, |before| / 2 - position))
    requires forall b :: 0 <= b < |after| ==>
               after[b] == if 2 * position <= b < 2 * position + 2 * count then raw[b - 2 * position] else before[b]
    ensures Faithful(after, frames + [f])
  {
    hide Faithful, EndsAt;
    Written(before, after, f, raw, position, count);
    FaithfulStep(before, after, frames, f, cursor);
  }

  lemma Written(before: seq<byte>, after: seq<byte>, f: Frame, raw: seq<byte>, position: nat, count: nat)
    requires |after| == |before| && |before| % 2 == 0 && |f.raw| % 2 == 0 && Sounds(f) && position == From(f)
    requires raw == f.raw[2 * (position - f.position.value)..] && count == Min(|raw| / 2, Max(0, |before| / 2 - position))
    requires forall b :: 0 <= b < |after| ==>
               after[b] == if 2 * position <= b < 2 * position + 2 * count then raw[b - 2 * position] else before[b]
    ensures forall b :: 0 <= b < |after| ==>
              after[b] == if Covers(f, b / 2) then f.raw[b - 2 * f.position.value] else before[b]
  {
  }

  /** The whole track. What it returns is fixed by the frames alone: every sample of the media is copied
      from the frame that covers it or zero, and both counts are conserved. */
  method PcmAudio(frames: seq<Frame>, durationMs: nat)
    returns (result: Result<(seq<byte>, nat, nat), AudioError>)
    requires WholeSamples(frames)
    ensures result.Success? <==> WellPlaced(frames) && exists i :: 0 <= i < |frames| && Sounds(frames[i])
    ensures result.Success? ==>
              var (pcm, zeroFilled, removed) := result.value;
              && |pcm| == 32 * durationMs && Faithful(pcm, frames)
              && zeroFilled == Uncovered(frames, 0, 16 * durationMs)
              && Copied(frames, 16 * durationMs) + removed == Decoded(frames)
              && Copied(frames, 16 * durationMs) + zeroFilled == 16 * durationMs
    ensures result.Failure? && WellPlaced(frames) ==> result.error == NoSamples
  {
    hide Faithful, Uncovered, Copied, Decoded;
    var assembler := new Assembler(durationMs);
    for k := 0 to |frames|
      invariant fresh(assembler) && fresh(assembler.pcm) && assembler.pcm.Length == 32 * durationMs
      invariant assembler.Valid() && assembler.consumed == frames[..k]
    {
      var error := assembler.Consume(frames[k]);
      assert frames[..k + 1] == frames[..k] + [frames[k]];
      if error.Some? {
        Prefixes(frames, k + 1);
        return Failure(error.value);
      }
    }
    assert frames[..|frames|] == frames;
    if assembler.cursor == 0 {
      return Failure(NoSamples);
    }
    var limit := assembler.pcm.Length / 2;
    RestIsUncovered(frames, assembler.cursor, limit);
    EverySampleOnce(frames, assembler.cursor, limit);
    return Success((assembler.pcm[..], assembler.gaps + Max(0, limit - assembler.cursor), assembler.clipped));
  }

  lemma Prefixes(frames: seq<Frame>, k: nat)
    requires k <= |frames|
    ensures WellPlaced(frames) ==> WellPlaced(frames[..k])
  {
  }

  lemma RestIsUncovered(frames: seq<Frame>, cursor: nat, limit: nat)
    requires EndsAt(frames, cursor)
    ensures Uncovered(frames, 0, limit) == Uncovered(frames, 0, Min(cursor, limit)) + Max(0, limit - cursor)
  {
    hide Uncovered, EndsAt;
    forall at | Min(cursor, limit) <= at < limit ensures !Covered(frames, at) {
      if Covered(frames, at) { CoveredBeforeCursor(frames, cursor, at); }
    }
    NoneCovered(frames, Min(cursor, limit), limit);
    UncoveredSplits(frames, 0, Min(cursor, limit), limit);
  }

  /** Frames that follow each other fill each covered place exactly once. */
  lemma {:induction false} EverySampleOnce(frames: seq<Frame>, cursor: nat, limit: nat)
    requires WellPlaced(frames) && EndsAt(frames, cursor)
    ensures Copied(frames, limit) + Uncovered(frames, 0, Min(cursor, limit)) == Min(cursor, limit)
    ensures Copied(frames, limit) + Uncovered(frames, 0, limit) == limit
  {
    hide Uncovered, Copied, EndsAt, WellPlaced, Placed;
    RestIsUncovered(frames, cursor, limit);
    if frames == [] {
      NoFrames(cursor, limit);
    } else {
      var before, f := frames[..|frames| - 1], frames[|frames| - 1];
      assert frames == before + [f];
      Prefixes(frames, |frames| - 1);
      var earlier := LastEnd(before);
      EverySampleOnce(before, earlier, limit);
      PlacedMore(before, f, earlier);
      PlacedIs(f.position.value, Samples(f), limit);
      CountsMore(before, f, limit);
      if Sounds(f) {
        SoundingFrame(before, f, limit, earlier);
        OneEnd(frames, cursor, To(f));
      } else {
        SilentFrame(before, f, limit, earlier);
        OneEnd(frames, cursor, earlier);
      }
    }
  }

  lemma NoFrames(cursor: nat, limit: nat)
    requires EndsAt([], cursor)
    ensures Copied([], limit) == 0 && cursor == 0 && Uncovered([], 0, 0) == 0
  {
  }

  lemma OneEnd(frames: seq<Frame>, a: nat, b: nat)
    requires EndsAt(frames, a) && EndsAt(frames, b)
    ensures a == b
  {
  }

  lemma {:induction false} LastEnd(frames: seq<Frame>) returns (cursor: nat)
    requires WellPlaced(frames)
    ensures EndsAt(frames, cursor)
  {
    if frames == [] {
      cursor := 0;
    } else {
      var before, f := frames[..|frames| - 1], frames[|frames| - 1];
      var earlier := LastEnd(before);
      assert frames == before + [f];
      PlacedMore(before, f, earlier);
      cursor := if Sounds(f) then To(f) else earlier;
      EndsMore(before, f, earlier, cursor);
    }
  }

  // ----- The source clock -----

  /** A source frame: its time stamp rounded to samples, and how far rounding may move it. */
  datatype ClockFrame = ClockFrame(actual: Option<int>, samples: nat, tolerance: nat)

  /** Where a gapless clock started at the first time stamp puts frame `k`. */
  function ClockAt(frames: seq<ClockFrame>, k: nat): int
    requires k <= |frames| && frames != [] && frames[0].actual.Some?
  {
    if k == 0 then frames[0].actual.value else ClockAt(frames, k - 1) + frames[k - 1].samples
  }

  predicate OnClock(frames: seq<ClockFrame>, k: nat)
    requires k < |frames|
  {
    && frames[0].actual.Some? && frames[k].actual.Some?
    && Distance(frames[k].actual.value, ClockAt(frames, k)) <= frames[k].tolerance
  }

  /** How far the rounded time stamp of frame `k` is from the gapless clock. */
  function Stray(frames: seq<ClockFrame>, k: nat): nat
    requires k < |frames| && OnClock(frames, k)
  {
    Distance(frames[k].actual.value, ClockAt(frames, k))
  }

  ghost predicate Clocked(frames: seq<ClockFrame>, positions: seq<int>, adjustment: nat) {
    && |positions| <= |frames|
    && (forall k: nat :: k < |positions| ==>
          OnClock(frames, k) && positions[k] == ClockAt(frames, k) && Stray(frames, k) <= adjustment)
    && (adjustment > 0 ==> exists k: nat :: k < |positions| && OnClock(frames, k) && Stray(frames, k) == adjustment)
  }

  lemma NothingClocked(frames: seq<ClockFrame>)
    ensures Clocked(frames, [], 0)
  {
  }

  lemma ClockedStep(frames: seq<ClockFrame>, positions: seq<int>, adjustment: nat)
    requires Clocked(frames, positions, adjustment) && |positions| < |frames| && OnClock(frames, |positions|)
    ensures var k := |positions|;
            Clocked(frames, positions + [ClockAt(frames, k)],
                    if Stray(frames, k) > adjustment then Stray(frames, k) else adjustment)
  {
    hide ClockAt, OnClock, Stray;
  }

  /** Time stamps are replaced by a gapless clock, from which none may stray by more than its rounding. */
  method SourceClock(frames: seq<ClockFrame>) returns (result: Result<(seq<int>, nat), AudioError>)
    ensures result.Success? <==> forall k: nat :: k < |frames| ==> OnClock(frames, k)
    ensures result.Success? ==> |result.value.0| == |frames| && Clocked(frames, result.value.0, result.value.1)
  {
    hide Clocked;
    var positions: seq<int>, adjustment: nat := [], 0;
    NothingClocked(frames);
    var expected: Option<int> := None;
    for k := 0 to |frames|
      invariant |positions| == k && Clocked(frames, positions, adjustment)
      invariant forall i: nat :: i < k ==> OnClock(frames, i)
      invariant if k == 0 then expected.None? else frames[0].actual.Some? && expected == Some(ClockAt(frames, k))
    {
      var f := frames[k];
      if f.actual.None? {
        assert !OnClock(frames, k);
        return Failure(MissingTimestamp);
      }
      var position := if expected.None? then f.actual.value else expected.value;
      var strays := Distance(f.actual.value, position);
      if strays > f.tolerance {
        assert !OnClock(frames, k);
        return Failure(Discontinuity);
      }
      ClockedStep(frames, positions, adjustment);
      positions := positions + [position];
      if strays > adjustment {
        adjustment := strays;
      }
      expected := Some(position + f.samples);
    }
    return Success((positions, adjustment));
  }
}
