/** Buffered capture: chunks of a fixed grid arrive in any order, and the manifest accounts for every
    millisecond of the capture. Transfer, hashing, quotas and job queueing are not modelled. */
module Captures {
  import opened Wrappers
  import opened Lists

  const MAX_CAPTURE_MS: nat := 180_000

  datatype Modality = Speech | Text | Both

  datatype Content = Content(sizeBytes: nat, digest: string, contentType: string)

  datatype Chunk = Chunk(place: nat, endMs: nat, content: Content, modality: Modality, received: bool)

  /** Half-open, in milliseconds of the capture. */
  datatype Span = Span(from: int, to: int)

  /** Sequence numbers, both ends included. */
  datatype PlaceRange = PlaceRange(from: int, to: int)

  datatype Refusal = BadInterval | Conflict | NotOpen | NotFinal | TooLarge | Unreserved | Truncates | CloseConflict

  datatype Disposition = Stored | Duplicate | OutOfOrder

  datatype Manifest = Manifest(durationMs: nat, missing: seq<Span>, speech: seq<Span>, text: seq<Span>)

  // ----- Missing sequence numbers -----

  ghost predicate Within(ranges: seq<PlaceRange>, n: int) {
    exists k :: 0 <= k < |ranges| && ranges[k].from <= n <= ranges[k].to
  }

  /** Nonempty ranges in order with something between each two: no two could be joined. */
  predicate MaximalRuns(ranges: seq<PlaceRange>) {
    && (forall k :: 0 <= k < |ranges| ==> 0 <= ranges[k].from <= ranges[k].to)
    && (forall j, k :: 0 <= j < k < |ranges| ==> ranges[j].to + 1 < ranges[k].from)
  }

  /** The ranges hold exactly the numbers below `top` that are not in the list. */
  ghost predicate Absentees(places: seq<nat>, ranges: seq<PlaceRange>, top: int) {
    forall n :: Within(ranges, n) <==> 0 <= n < top && n !in places
  }

  predicate Lower(m: nat, n: nat) {
    m < n
  }

  lemma SortedPlaces(places: seq<nat>)
    ensures var sorted := Sort(places, Lower);
            && (forall i, j :: 0 <= i < j < |sorted| ==> sorted[i] <= sorted[j])
            && (forall n :: n in sorted <==> n in places) && |sorted| == |places|
  {
    SortSorts(places, Lower);
    SamePermutation(Sort(places, Lower), places);
    hide Sort;
    var sorted := Sort(places, Lower);
    forall i, j | 0 <= i < j < |sorted| ensures sorted[i] <= sorted[j] { assert !Lower(sorted[j], sorted[i]); }
  }

  /** The missing sequence numbers below the highest one, as maximal runs. */
  method Gaps(places: seq<nat>) returns (ranges: seq<PlaceRange>, ghost top: int)
    ensures MaximalRuns(ranges) && Absentees(places, ranges, top)
    ensures forall n :: n in places ==> n < top
    ensures if places == [] then top == 0 else top - 1 in places
  {
    hide MaximalRuns, Within, Sort;
    var sorted := Sort(places, Lower);
    SortedPlaces(places);
    ranges := [];
    NoRuns();
    var expected := 0;
    for k := 0 to |sorted|
      invariant expected == if k == 0 then 0 else sorted[k - 1] + 1
      invariant MaximalRuns(ranges) && (ranges != [] ==> ranges[|ranges| - 1].to + 1 < expected)
      invariant Absentees(sorted[..k], ranges, expected)
    {
      var place := sorted[k];
      assert sorted[..k + 1] == sorted[..k] + [place];
      if place > expected {
        RunAdded(ranges, expected, place);
        RunsStep(ranges, ranges + [PlaceRange(expected, place - 1)], sorted[..k], expected, place);
        ranges := ranges + [PlaceRange(expected, place - 1)];
      } else {
        RunsStep(ranges, ranges, sorted[..k], expected, place);
      }
      expected := place + 1;
    }
    top := expected;
    assert sorted[..|sorted|] == sorted;
    assert sorted != [] ==> sorted[|sorted| - 1] in sorted;
  }

  lemma NoRuns()
    ensures MaximalRuns([]) && Absentees([], [], 0)
  {
  }

  lemma RunAdded(ranges: seq<PlaceRange>, expected: nat, place: nat)
    requires MaximalRuns(ranges) && (ranges != [] ==> ranges[|ranges| - 1].to + 1 < expected) && expected < place
    ensures MaximalRuns(ranges + [PlaceRange(expected, place - 1)])
  {
  }

  lemma RunsStep(before: seq<PlaceRange>, ranges: seq<PlaceRange>, seen: seq<nat>, expected: nat, place: nat)
    requires Absentees(seen, before, expected)
    requires forall n :: n in seen ==> n < expected
    requires ranges == if place > expected then before + [PlaceRange(expected, place - 1)] else before
    requires place >= expected || (place + 1 == expected && place in seen)
    ensures Absentees(seen + [place], ranges, place + 1)
  {
    forall n ensures Within(ranges, n) <==> 0 <= n < place + 1 && n !in seen + [place] {
      if Within(before, n) {
        var k :| 0 <= k < |before| && before[k].from <= n <= before[k].to;
        assert ranges[k] == before[k];
      }
      if expected <= n < place { assert ranges[|before|].from <= n <= ranges[|before|].to; }
    }
  }

  /** There is only one such list of ranges. */
  lemma {:induction false} RunsAreUnique(a: seq<PlaceRange>, b: seq<PlaceRange>)
    requires MaximalRuns(a) && MaximalRuns(b) && forall n :: Within(a, n) <==> Within(b, n)
    ensures a == b
  {
    assert a != [] ==> Within(a, a[0].from);
    assert b != [] ==> Within(b, b[0].from);
    if a != [] && b != [] {
      var i, j := |a| - 1, |b| - 1;
      LastRunsAgree(a, b);
      forall n ensures Within(a[..i], n) <==> Within(b[..j], n) {
        WithinAllButLast(a, n);
        WithinAllButLast(b, n);
      }
      RunsAreUnique(a[..i], b[..j]);
      assert a == a[..i] + [a[i]] && b == b[..j] + [b[j]];
    }
  }

  lemma WithinAllButLast(a: seq<PlaceRange>, n: int)
    requires MaximalRuns(a) && a != []
    ensures Within(a[..|a| - 1], n) <==> Within(a, n) && !(a[|a| - 1].from <= n <= a[|a| - 1].to)
  {
    var init := a[..|a| - 1];
    if Within(init, n) {
      var k :| 0 <= k < |init| && init[k].from <= n <= init[k].to;
      assert a[k] == init[k];
    }
    if Within(a, n) && !(a[|a| - 1].from <= n <= a[|a| - 1].to) {
      var k :| 0 <= k < |a| && a[k].from <= n <= a[k].to;
      assert init[k] == a[k];
    }
  }

  lemma LastRunsAgree(a: seq<PlaceRange>, b: seq<PlaceRange>)
    requires MaximalRuns(a) && MaximalRuns(b) && a != [] && b != [] && forall n :: Within(a, n) <==> Within(b, n)
    ensures a[|a| - 1] == b[|b| - 1]
  {
    var x, y := a[|a| - 1], b[|b| - 1];
    assert Within(a, x.to) && Within(b, y.to);
    assert x.to == y.to;
    assert forall n :: x.from <= n <= x.to ==> Within(a, n);
    assert forall n :: y.from <= n <= y.to ==> Within(b, n);
    assert !Within(a, x.from - 1) && !Within(b, y.from - 1);
  }

  // ----- The manifest -----

  const Place := (c: Chunk) => c.place

  predicate Earlier(a: Chunk, b: Chunk) {
    a.place < b.place
  }

  function Start(c: Chunk, cell: nat): nat {
    c.place * cell
  }

  predicate Short(c: Chunk, cell: nat) {
    c.endMs < Start(c, cell) + cell
  }

  /** Each chunk lies in its own cell of the grid and only the last one may be short. */
  ghost predicate OnGrid(chunks: seq<Chunk>, cell: nat) {
    && (forall c :: c in chunks ==> Start(c, cell) < c.endMs <= Start(c, cell) + cell && c.endMs <= MAX_CAPTURE_MS)
    && DistinctBy(chunks, Place)
    && (forall c, d :: c in chunks && d in chunks && c.place < d.place ==> !Short(c, cell))
  }

  function Received(chunks: seq<Chunk>): seq<Chunk> {
    Filter(chunks, (c: Chunk) => c.received)
  }

  /** The duration covers every received chunk. */
  ghost predicate Covers(chunks: seq<Chunk>, duration: nat) {
    forall c :: c in chunks && c.received ==> c.endMs <= duration
  }

  function LastEnd(chunks: seq<Chunk>): (end: nat)
    ensures Covers(chunks, end) && (end != 0 ==> exists c :: c in chunks && c.received && c.endMs == end)
  {
    if chunks == [] then 0
    else
      assert chunks == chunks[..|chunks| - 1] + [chunks[|chunks| - 1]];
      var before, c := LastEnd(chunks[..|chunks| - 1]), chunks[|chunks| - 1];
      if c.received && c.endMs > before then c.endMs else before
  }

  ghost predicate Heard(chunks: seq<Chunk>, cell: nat, ms: int) {
    exists c :: c in chunks && Start(c, cell) <= ms < c.endMs
  }

  ghost predicate Inside(spans: seq<Span>, ms: int) {
    exists k :: 0 <= k < |spans| && spans[k].from <= ms < spans[k].to
  }

  /** Nonempty spans, in order, with something between each two. */
  predicate Separated(spans: seq<Span>) {
    && (forall k :: 0 <= k < |spans| ==> 0 <= spans[k].from < spans[k].to)
    && (forall j, k :: 0 <= j < k < |spans| ==> spans[j].to < spans[k].from)
  }

  function Total(spans: seq<Span>): int {
    if spans == [] then 0 else Total(spans[..|spans| - 1]) + (spans[|spans| - 1].to - spans[|spans| - 1].from)
  }

  /** Milliseconds of media in these chunks. */
  function Media(chunks: seq<Chunk>, cell: nat): int {
    if chunks == [] then 0 else chunks[0].endMs - Start(chunks[0], cell) + Media(chunks[1..], cell)
  }

  /** The milliseconds received so far, as a session reports them. */
  function ReceivedMs(chunks: seq<Chunk>, cell: nat): int {
    Media(Received(chunks), cell)
  }

  lemma TotalAppend(spans: seq<Span>, s: Span)
    ensures Total(spans + [s]) == Total(spans) + (s.to - s.from)
  {
    assert (spans + [s])[..|spans|] == spans;
  }

  lemma {:induction false} MediaAppend(chunks: seq<Chunk>, cell: nat, c: Chunk)
    ensures Media(chunks + [c], cell) == Media(chunks, cell) + (c.endMs - Start(c, cell))
  {
    if chunks != [] {
      MediaAppend(chunks[1..], cell, c);
      assert (chunks + [c])[1..] == chunks[1..] + [c];
    }
  }

  lemma {:induction false} InsertMedia(c: Chunk, chunks: seq<Chunk>, cell: nat)
    ensures Media(Insert(c, chunks, Earlier), cell) == Media(chunks, cell) + (c.endMs - Start(c, cell))
  {
    if chunks != [] && Earlier(chunks[0], c) {
      InsertMedia(c, chunks[1..], cell);
      assert Insert(c, chunks, Earlier)[1..] == Insert(c, chunks[1..], Earlier);
    } else {
      assert ([c] + chunks)[1..] == chunks;
    }
  }

  /** Sorting the chunks loses no media. */
  lemma {:induction false} SortMedia(chunks: seq<Chunk>, cell: nat)
    ensures Media(Sort(chunks, Earlier), cell) == Media(chunks, cell)
  {
    if chunks != [] {
      SortMedia(chunks[1..], cell);
      InsertMedia(chunks[0], Sort(chunks[1..], Earlier), cell);
    }
  }

  /** The spans say exactly when chunks that pass the filter were running, one span per chunk, in order. */
  ghost predicate Declares(spans: seq<Span>, chunks: seq<Chunk>, cell: nat, says: Chunk -> bool) {
    && (forall j, k :: 0 <= j < k < |spans| ==> spans[j].to <= spans[k].from)
    && (forall ms :: Inside(spans, ms) <==> exists c :: c in chunks && says(c) && Start(c, cell) <= ms < c.endMs)
  }

  const Speaks := (c: Chunk) => c.modality != Text
  const Shows := (c: Chunk) => c.modality != Speech

  /** What has been accounted for up to the end of the chunks seen so far. */
  ghost predicate Accounted(chunks: seq<Chunk>, cell: nat, missing: seq<Span>, end: nat) {
    && Separated(missing) && (missing != [] ==> missing[|missing| - 1].to < end)
    && (forall ms :: Heard(chunks, cell, ms) ==> 0 <= ms < end)
    && (forall ms :: Inside(missing, ms) <==> 0 <= ms < end && !Heard(chunks, cell, ms))
    && Media(chunks, cell) + Total(missing) == end
  }

  lemma InsideAppend(spans: seq<Span>, s: Span, ms: int)
    ensures Inside(spans + [s], ms) <==> Inside(spans, ms) || s.from <= ms < s.to
  {
    var more := spans + [s];
    if Inside(spans, ms) {
      var k :| 0 <= k < |spans| && spans[k].from <= ms < spans[k].to;
      assert more[k] == spans[k];
    }
    if s.from <= ms < s.to { assert more[|spans|] == s; }
  }

  lemma MissingStep(chunks: seq<Chunk>, cell: nat, missing: seq<Span>, end: nat, start: nat)
    requires Accounted(chunks, cell, missing, end) && end < start
    ensures var more := missing + [Span(end, start)];
            && Separated(more) && Media(chunks, cell) + Total(more) == start
            && forall ms :: Inside(more, ms) <==> 0 <= ms < start && !Heard(chunks, cell, ms)
  {
    hide Heard, Inside, Total, Media;
    TotalAppend(missing, Span(end, start));
    forall ms ensures Inside(missing + [Span(end, start)], ms) <==> 0 <= ms < start && !Heard(chunks, cell, ms) {
      InsideAppend(missing, Span(end, start), ms);
    }
  }

  lemma {:induction false} ChunkStep(chunks: seq<Chunk>, cell: nat, missing: seq<Span>, start: nat, c: Chunk)
    requires Separated(missing) && Media(chunks, cell) + Total(missing) == start == Start(c, cell) < c.endMs
    requires missing != [] ==> missing[|missing| - 1].to <= start
    requires forall ms :: Heard(chunks, cell, ms) ==> 0 <= ms < start
    requires forall ms :: Inside(missing, ms) <==> 0 <= ms < start && !Heard(chunks, cell, ms)
    ensures Accounted(chunks + [c], cell, missing, c.endMs)
  {
    hide Inside, Total, Media;
    MediaAppend(chunks, cell, c);
    forall ms ensures Heard(chunks + [c], cell, ms) <==> Heard(chunks, cell, ms) || start <= ms < c.endMs {
      assert forall d :: d in chunks + [c] <==> d in chunks || d == c;
    }
  }

  lemma DeclareStep(spans: seq<Span>, chunks: seq<Chunk>, cell: nat, says: Chunk -> bool, c: Chunk, end: nat)
    requires Declares(spans, chunks, cell, says) && end <= Start(c, cell) < c.endMs
    requires forall k :: 0 <= k < |spans| ==> spans[k].to <= end
    ensures var more := if says(c) then spans + [Span(Start(c, cell), c.endMs)] else spans;
            Declares(more, chunks + [c], cell, says)
  {
    hide Inside;
    var more := if says(c) then spans + [Span(Start(c, cell), c.endMs)] else spans;
    forall ms ensures Inside(more, ms) <==> exists d :: d in chunks + [c] && says(d) && Start(d, cell) <= ms < d.endMs {
      InsideAppend(spans, Span(Start(c, cell), c.endMs), ms);
      assert forall d :: d in chunks + [c] <==> d in chunks || d == c;
    }
  }

  lemma CellsApart(a: Chunk, b: Chunk, cell: nat)
    requires a.place < b.place
    ensures Start(a, cell) + cell <= Start(b, cell)
  {
    assert (a.place + 1) * cell == a.place * cell + cell;
  }

  /** The received chunks in order: on the grid, each after the one before it. */
  lemma InOrder(chunks: seq<Chunk>, cell: nat) returns (sorted: seq<Chunk>)
    requires OnGrid(chunks, cell)
    ensures sorted == Sort(Received(chunks), Earlier)
    ensures forall c :: c in sorted <==> c in chunks && c.received
    ensures Media(sorted, cell) == ReceivedMs(chunks, cell)
    ensures forall k :: 0 <= k < |sorted| ==> Start(sorted[k], cell) < sorted[k].endMs
    ensures forall k :: 0 < k < |sorted| ==> sorted[k - 1].endMs <= Start(sorted[k], cell)
  {
    hide Sort, Filter, Media, Start, Short;
    sorted := Sort(Received(chunks), Earlier);
    SortSorts(Received(chunks), Earlier);
    SamePermutation(sorted, Received(chunks));
    SortMedia(Received(chunks), cell);
    FilterDistinct(chunks, (c: Chunk) => c.received, Place);
    PermutedDistinct(Received(chunks), sorted, Place);
    forall k | 0 < k < |sorted| ensures sorted[k - 1].endMs <= Start(sorted[k], cell) {
      assert !Earlier(sorted[k], sorted[k - 1]) && Place(sorted[k - 1]) != Place(sorted[k]);
      CellsApart(sorted[k - 1], sorted[k], cell);
      assert sorted[k - 1] in sorted;
    }
  }

  /** The lists the manifest has built from the chunks seen so far. */
  ghost predicate BuiltUpTo(seen: seq<Chunk>, cell: nat, missing: seq<Span>, speech: seq<Span>, text: seq<Span>, end: nat) {
    && Accounted(seen, cell, missing, end)
    && Declares(speech, seen, cell, Speaks) && (forall j :: 0 <= j < |speech| ==> speech[j].to <= end)
    && Declares(text, seen, cell, Shows) && (forall j :: 0 <= j < |text| ==> text[j].to <= end)
  }

  lemma BuiltStep(seen: seq<Chunk>, cell: nat, missing: seq<Span>, speech: seq<Span>, text: seq<Span>, end: nat, c: Chunk)
    requires BuiltUpTo(seen, cell, missing, speech, text, end) && end <= Start(c, cell) < c.endMs
    ensures BuiltUpTo(seen + [c], cell,
                      if Start(c, cell) > end then missing + [Span(end, Start(c, cell))] else missing,
                      if Speaks(c) then speech + [Span(Start(c, cell), c.endMs)] else speech,
                      if Shows(c) then text + [Span(Start(c, cell), c.endMs)] else text, c.endMs)
  {
    hide Start, Declares, Accounted;
    SeenStep(seen, cell, missing, end, c);
    DeclareStep(speech, seen, cell, Speaks, c, end);
    DeclareStep(text, seen, cell, Shows, c, end);
  }

  /** Received and missing spans tile the capture from zero to its duration. */
  ghost predicate Tiles(m: Manifest, chunks: seq<Chunk>, cell: nat) {
    && Separated(m.missing)
    && (forall ms :: Heard(Received(chunks), cell, ms) ==> 0 <= ms < m.durationMs)
    && (forall ms :: Inside(m.missing, ms) <==> 0 <= ms < m.durationMs && !Heard(Received(chunks), cell, ms))
    && ReceivedMs(chunks, cell) + Total(m.missing) == m.durationMs
  }

  /** The spans say exactly when a received chunk of this modality, or of both, was running. */
  ghost predicate RunsWith(spans: seq<Span>, chunks: seq<Chunk>, cell: nat, modality: Modality) {
    forall ms :: Inside(spans, ms) <==>
      exists c :: c in chunks && c.received && (c.modality == modality || c.modality == Both)
                  && Start(c, cell) <= ms < c.endMs
  }

  lemma DeclaredRuns(spans: seq<Span>, chunks: seq<Chunk>, cell: nat, says: Chunk -> bool, modality: Modality)
    requires Declares(spans, Received(chunks), cell, says)
    requires forall c :: says(c) <==> c.modality == modality || c.modality == Both
    ensures RunsWith(spans, chunks, cell, modality)
  {
    hide Inside, Start;
  }

  method BuildManifest(chunks: seq<Chunk>, cell: nat, declared: Option<nat>) returns (m: Manifest)
    requires OnGrid(chunks, cell) && (declared.Some? ==> Covers(chunks, declared.value))
    ensures m.durationMs == if declared.Some? then declared.value else LastEnd(chunks)
    ensures Tiles(m, chunks, cell)
    ensures Declares(m.speech, Received(chunks), cell, Speaks) && Declares(m.text, Received(chunks), cell, Shows)
    ensures RunsWith(m.speech, chunks, cell, Speech) && RunsWith(m.text, chunks, cell, Text)
  {
    hide RunsWith, Sort, Filter, Received, Start, BuiltUpTo, Tiles, Declares, Covers, LastEnd, OnGrid;
    var duration := if declared.Some? then declared.value else LastEnd(chunks);
    var sorted := Sort(Received(chunks), Earlier);
    ghost var check := InOrder(chunks, cell);
    var missing: seq<Span>, speech: seq<Span>, text: seq<Span> := [], [], [];
    var end := 0;
    NothingSeen(cell);
    for k := 0 to |sorted|
      invariant end == if k == 0 then 0 else sorted[k - 1].endMs
      invariant BuiltUpTo(sorted[..k], cell, missing, speech, text, end)
    {
      var c := sorted[k];
      var start := Start(c, cell);
      assert sorted[..k + 1] == sorted[..k] + [c];
      BuiltStep(sorted[..k], cell, missing, speech, text, end, c);
      if start > end {
        missing := missing + [Span(end, start)];
      }
      if Speaks(c) {
        speech := speech + [Span(start, c.endMs)];
      }
      if Shows(c) {
        text := text + [Span(start, c.endMs)];
      }
      end := c.endMs;
    }
    assert sorted[..|sorted|] == sorted;
    Finished(chunks, sorted, cell, missing, speech, text, end, duration);
    if end < duration {
      missing := missing + [Span(end, duration)];
    }
    m := Manifest(duration, missing, speech, text);
    DeclaredRuns(speech, chunks, cell, Speaks, Speech);
    DeclaredRuns(text, chunks, cell, Shows, Text);
  }

  lemma Finished(chunks: seq<Chunk>, sorted: seq<Chunk>, cell: nat, missing: seq<Span>, speech: seq<Span>, text: seq<Span>,
                 end: nat, duration: nat)
    requires BuiltUpTo(sorted, cell, missing, speech, text, end) && Covers(chunks, duration)
    requires forall c :: c in sorted <==> c in chunks && c.received
    requires Media(sorted, cell) == ReceivedMs(chunks, cell)
    requires end == if sorted == [] then 0 else sorted[|sorted| - 1].endMs
    ensures var all := if end < duration then missing + [Span(end, duration)] else missing;
            Tiles(Manifest(duration, all, speech, text), chunks, cell)
    ensures Declares(speech, Received(chunks), cell, Speaks) && Declares(text, Received(chunks), cell, Shows)
  {
    hide Start, Declares, Accounted, Covers, Heard, Inside, ReceivedMs, Filter, Total, Media;
    SameChunks(sorted, Received(chunks), cell);
    var all := if end < duration then missing + [Span(end, duration)] else missing;
    LastStep(chunks, sorted, cell, missing, end, duration, all);
  }

  lemma NothingSeen(cell: nat)
    ensures BuiltUpTo([], cell, [], [], [], 0)
  {
  }

  lemma SeenStep(seen: seq<Chunk>, cell: nat, missing: seq<Span>, end: nat, c: Chunk)
    requires Accounted(seen, cell, missing, end) && end <= Start(c, cell) < c.endMs
    ensures var more := if Start(c, cell) > end then missing + [Span(end, Start(c, cell))] else missing;
            Accounted(seen + [c], cell, more, c.endMs)
  {
    hide Start, Heard, Inside, Total, Media;
    if Start(c, cell) > end {
      MissingStep(seen, cell, missing, end, Start(c, cell));
      ChunkStep(seen, cell, missing + [Span(end, Start(c, cell))], Start(c, cell), c);
    } else {
      ChunkStep(seen, cell, missing, end, c);
    }
  }

  lemma SameChunks(s: seq<Chunk>, t: seq<Chunk>, cell: nat)
    requires forall c :: c in s <==> c in t
    ensures forall ms :: Heard(s, cell, ms) <==> Heard(t, cell, ms)
    ensures forall spans, says :: Declares(spans, s, cell, says) <==> Declares(spans, t, cell, says)
  {
  }

  lemma LastStep(chunks: seq<Chunk>, sorted: seq<Chunk>, cell: nat, missing: seq<Span>, end: nat, duration: nat,
                 all: seq<Span>)
    requires Accounted(sorted, cell, missing, end) && Covers(chunks, duration) && forall c :: c in sorted ==> c in chunks && c.received
    requires end == if sorted == [] then 0 else sorted[|sorted| - 1].endMs
    requires all == if end < duration then missing + [Span(end, duration)] else missing
    ensures end <= duration && Separated(all) && Media(sorted, cell) + Total(all) == duration
    ensures forall ms :: Heard(sorted, cell, ms) ==> 0 <= ms < duration
    ensures forall ms :: Inside(all, ms) <==> 0 <= ms < duration && !Heard(sorted, cell, ms)
  {
    hide Start, Heard, Inside, Total, Media;
    assert sorted != [] ==> sorted[|sorted| - 1] in sorted;
    if end < duration { MissingStep(sorted, cell, missing, end, duration); }
  }

  // ----- The session -----

  predicate Fits(c: Chunk, cell: nat) {
    Start(c, cell) < c.endMs <= Start(c, cell) + cell && c.endMs <= MAX_CAPTURE_MS
  }

  function Bytes(chunks: seq<Chunk>): nat {
    if chunks == [] then 0 else Bytes(chunks[..|chunks| - 1]) + chunks[|chunks| - 1].content.sizeBytes
  }

  /** Bytes add up over the chunks. */
  lemma {:induction false} BytesAdd(chunks: seq<Chunk>, more: seq<Chunk>)
    ensures Bytes(chunks + more) == Bytes(chunks) + Bytes(more)
    ensures forall c :: Bytes([c]) == c.content.sizeBytes
  {
    if more == [] {
      assert chunks + more == chunks;
    } else {
      assert (chunks + more)[..|chunks + more| - 1] == chunks + more[..|more| - 1];
      BytesAdd(chunks, more[..|more| - 1]);
    }
    assert forall c: Chunk :: [c][..0] == [];
  }

  predicate Holds(chunks: seq<Chunk>, place: nat) {
    exists k :: 0 <= k < |chunks| && chunks[k].place == place
  }

  /** One of two chunks would be short and still followed by the other. */
  predicate ShortBeforeAnother(c: Chunk, added: Chunk, cell: nat) {
    (c.place < added.place && Short(c, cell)) || (c.place > added.place && Short(added, cell))
  }

  /** Comparing a new chunk with each held one is enough to keep the grid rule. */
  lemma GridGrows(chunks: seq<Chunk>, added: Chunk, cell: nat)
    requires OnGrid(chunks, cell) && Fits(added, cell) && !Holds(chunks, added.place)
    ensures OnGrid(chunks + [added], cell) <==> forall c :: c in chunks ==> !ShortBeforeAnother(c, added, cell)
  {
    hide Start, Short;
    var more := chunks + [added];
    assert forall c :: c in more <==> c in chunks || c == added;
    assert DistinctBy(more, Place);
  }

  /** The reservation of a chunk is acceptable: a repeat of what is held, or a new chunk on the grid. */
  ghost predicate Acceptable(chunks: seq<Chunk>, cell: nat, open: bool, asked: Chunk, maxBytes: nat) {
    && Fits(asked, cell)
    && if Holds(chunks, asked.place)
       then exists c :: c in chunks && c.(received := false) == asked && (c.received || open)
       else open && OnGrid(chunks + [asked], cell) && Bytes(chunks) + asked.content.sizeBytes <= maxBytes
  }

  lemma OneHolderOnGrid(chunks: seq<Chunk>, cell: nat, k: nat)
    requires OnGrid(chunks, cell) && k < |chunks|
    ensures forall c :: c in chunks && c.place == chunks[k].place ==> c == chunks[k]
  {
    OneHolder(chunks, k);
  }

  lemma UnfitUnacceptable(chunks: seq<Chunk>, cell: nat, open: bool, asked: Chunk, maxBytes: nat)
    requires !Fits(asked, cell)
    ensures !Acceptable(chunks, cell, open, asked, maxBytes)
  {
  }

  lemma RepeatAcceptable(chunks: seq<Chunk>, cell: nat, open: bool, asked: Chunk, maxBytes: nat, k: nat)
    requires OnGrid(chunks, cell) && Fits(asked, cell) && !asked.received && k < |chunks| && chunks[k].place == asked.place
    ensures Holds(chunks, asked.place)
    ensures Acceptable(chunks, cell, open, asked, maxBytes) <==>
            && chunks[k].endMs == asked.endMs && chunks[k].content == asked.content && chunks[k].modality == asked.modality
            && (chunks[k].received || open)
  {
    hide Start;
    OneHolder(chunks, k);
    assert chunks[k] in chunks;
  }

  lemma NewAcceptable(chunks: seq<Chunk>, cell: nat, open: bool, asked: Chunk, maxBytes: nat)
    requires OnGrid(chunks, cell) && Fits(asked, cell) && !Holds(chunks, asked.place)
    ensures Acceptable(chunks, cell, open, asked, maxBytes) <==>
            && open && (forall c :: c in chunks ==> !ShortBeforeAnother(c, asked, cell))
            && Bytes(chunks) + asked.content.sizeBytes <= maxBytes
  {
    hide OnGrid, Fits, Bytes, Holds, ShortBeforeAnother;
    GridGrows(chunks, asked, cell);
  }

  lemma GrownStaysValid(chunks: seq<Chunk>, added: Chunk, cell: nat, duration: Option<nat>)
    requires duration.Some? ==> Covers(chunks, duration.value) && EndsWithShort(chunks, cell, duration.value)
    requires !added.received
    ensures duration.Some? ==> Covers(chunks + [added], duration.value) && EndsWithShort(chunks + [added], cell, duration.value)
  {
  }

  lemma OneHolder(chunks: seq<Chunk>, k: nat)
    requires DistinctBy(chunks, Place) && k < |chunks|
    ensures forall c :: c in chunks && c.place == chunks[k].place ==> c == chunks[k]
  {
    forall c | c in chunks && c.place == chunks[k].place ensures c == chunks[k] {
      var j :| 0 <= j < |chunks| && chunks[j] == c;
      OnePlace(chunks, Place, j, k);
    }
  }

  lemma MarkedStaysOnGrid(chunks: seq<Chunk>, cell: nat, k: nat)
    requires OnGrid(chunks, cell) && k < |chunks|
    ensures OnGrid(chunks[k := chunks[k].(received := true)], cell)
  {
    hide Start, MaximalRuns;
    var after := chunks[k := chunks[k].(received := true)];
    forall c | c in after ensures exists d :: d in chunks && d.place == c.place && d.endMs == c.endMs {
      var j :| 0 <= j < |after| && after[j] == c;
      assert chunks[j] in chunks;
    }
    forall a, b | 0 <= a < b < |after| ensures Place(after[a]) != Place(after[b]) {
      assert Place(chunks[a]) != Place(chunks[b]);
    }
    GridByPlaces(chunks, after, cell);
  }

  lemma GridByPlaces(chunks: seq<Chunk>, after: seq<Chunk>, cell: nat)
    requires OnGrid(chunks, cell) && DistinctBy(after, Place)
    requires forall c :: c in after ==> exists d :: d in chunks && d.place == c.place && d.endMs == c.endMs
    ensures OnGrid(after, cell)
  {
    forall c | c in after ensures Fits(c, cell) {
      var d :| d in chunks && d.place == c.place && d.endMs == c.endMs;
      assert Start(c, cell) == Start(d, cell);
    }
    forall c, e | c in after && e in after && c.place < e.place ensures !Short(c, cell) {
      var d :| d in chunks && d.place == c.place && d.endMs == c.endMs;
      var f :| f in chunks && f.place == e.place && f.endMs == e.endMs;
      assert !Short(d, cell) && Start(c, cell) == Start(d, cell);
    }
  }

  /** The places received so far are exactly those before this one. */
  ghost predicate AllBefore(places: seq<nat>, place: nat) {
    forall n: nat :: n < place <==> n in places
  }

  predicate AllDifferent(places: seq<nat>) {
    forall i, j :: 0 <= i < j < |places| ==> places[i] != places[j]
  }

  function Elements(places: seq<nat>): (r: set<nat>)
    ensures forall n :: n in r <==> n in places
    ensures AllDifferent(places) ==> |r| == |places|
  {
    if places == [] then {}
    else
      var before, last := places[..|places| - 1], places[|places| - 1];
      assert places == before + [last];
      assert AllDifferent(places) ==> forall k :: 0 <= k < |before| ==> before[k] == places[k] != last;
      Elements(before) + {last}
  }

  function Below(top: nat): (r: set<nat>)
    ensures |r| == top && forall n: nat :: n in r <==> n < top
  {
    if top == 0 then {} else Below(top - 1) + {top - 1}
  }

  lemma AsManyAs(places: seq<nat>, top: nat)
    requires AllDifferent(places) && AllBefore(places, top)
    ensures |places| == top
  {
    assert Elements(places) == Below(top);
  }

  /** Without a gap the distinct places received are the first so many. */
  lemma NoGapsMeansAllBefore(places: seq<nat>, ranges: seq<PlaceRange>, top: nat)
    requires AllDifferent(places)
    requires MaximalRuns(ranges) && Absentees(places, ranges, top) && forall n :: n in places ==> n < top
    requires if places == [] then top == 0 else top - 1 in places
    ensures AllBefore(places, |places|) <==> ranges == []
    ensures forall n: nat :: AllBefore(places, n) ==> n == |places|
  {
    if ranges == [] {
      forall n: nat ensures n in places <==> n < top {
        assert !Within(ranges, n);
      }
      AsManyAs(places, top);
    } else {
      assert Within(ranges, ranges[0].from);
    }
    forall n: nat | AllBefore(places, n) ensures n == |places| { AsManyAs(places, n); }
  }

  function PlacesOf(chunks: seq<Chunk>): (places: seq<nat>)
    ensures |places| == |chunks| && forall k :: 0 <= k < |chunks| ==> places[k] == chunks[k].place
  {
    seq(|chunks|, k requires 0 <= k < |chunks| => chunks[k].place)
  }

  /** A short received chunk ends with the capture. */
  ghost predicate EndsWithShort(chunks: seq<Chunk>, cell: nat, duration: nat) {
    forall c :: c in chunks && c.received && Short(c, cell) ==> c.endMs == duration
  }

  class CaptureSession {
    const cell: nat
    var chunks: seq<Chunk>
    var closed: bool
    var duration: Option<nat>
    var continueResearch: bool

    ghost predicate Valid()
      reads this
    {
      && OnGrid(chunks, cell) && (closed <==> duration.Some?)
      && (duration.Some? ==> Covers(chunks, duration.value) && EndsWithShort(chunks, cell, duration.value))
    }

    constructor (cell: nat)
      ensures Valid() && this.cell == cell && chunks == [] && !closed
    {
      this.cell := cell;
      chunks, closed, duration, continueResearch := [], false, None, false;
    }

    method Find(place: nat) returns (found: Option<nat>)
      ensures found.Some? <==> Holds(chunks, place)
      ensures found.Some? ==> found.value < |chunks| && chunks[found.value].place == place
    {
      for k := 0 to |chunks|
        invariant forall j :: 0 <= j < k ==> chunks[j].place != place
      {
        if chunks[k].place == place {
          return Some(k);
        }
      }
      return None;
    }

    /** Reserves a place for a chunk before its bytes arrive; `start` and `endMs` are the declared interval. */
    method Reserve(place: nat, start: nat, endMs: nat, content: Content, modality: Modality, expired: bool, maxBytes: nat)
      returns (refused: Option<Refusal>)
      requires Valid() && start < endMs
      modifies this`chunks
      ensures Valid()
      ensures refused.None? <==>
              start == place * cell
              && Acceptable(old(chunks), cell, !closed && !expired, Chunk(place, endMs, content, modality, false), maxBytes)
      ensures chunks == if refused.None? && !Holds(old(chunks), place)
                        then old(chunks) + [Chunk(place, endMs, content, modality, false)] else old(chunks)
    {
      var asked := Chunk(place, endMs, content, modality, false);
      assert Start(asked, cell) == place * cell;
      hide OnGrid, Covers, EndsWithShort, Acceptable, Start, Bytes, Holds;
      if start != Start(asked, cell) || endMs > Start(asked, cell) + cell || endMs > MAX_CAPTURE_MS {
        if start == place * cell { UnfitUnacceptable(chunks, cell, !closed && !expired, asked, maxBytes); }
        return Some(BadInterval);
      }
      var found := Find(place);
      if found.Some? {
        var existing := chunks[found.value];
        RepeatAcceptable(chunks, cell, !closed && !expired, asked, maxBytes, found.value);
        if existing.endMs != endMs || existing.content != content || existing.modality != modality {
          return Some(Conflict);
        }
        if existing.received {
          return None;
        }
        return if closed || expired then Some(NotOpen) else None;
      }
      NewAcceptable(chunks, cell, !closed && !expired, asked, maxBytes);
      if closed || expired {
        return Some(NotOpen);
      }
      for k := 0 to |chunks|
        invariant forall j :: 0 <= j < k ==> !ShortBeforeAnother(chunks[j], asked, cell)
      {
        if ShortBeforeAnother(chunks[k], asked, cell) {
          assert chunks[k] in chunks;
          return Some(NotFinal);
        }
      }
      assert forall c :: c in chunks ==> !ShortBeforeAnother(c, asked, cell);
      if Bytes(chunks) + content.sizeBytes > maxBytes {
        return Some(TooLarge);
      }
      GridGrows(chunks, asked, cell);
      GrownStaysValid(chunks, asked, cell, duration);
      chunks := chunks + [asked];
      return None;
    }

    /** The bytes of a reserved chunk have arrived and were verified. */
    method Receive(place: nat, expired: bool) returns (r: Result<Disposition, Refusal>)
      requires Valid()
      modifies this`chunks
      ensures Valid()
      ensures r.Failure? ==> chunks == old(chunks)
      ensures r.Success? ==> exists k :: 0 <= k < |old(chunks)| && old(chunks)[k].place == place
                                         && chunks == old(chunks)[k := old(chunks)[k].(received := true)]
      ensures r.Success? && r.value.Duplicate? <==> exists c :: c in old(chunks) && c.place == place && c.received
      ensures r.Success? && !r.value.Duplicate? ==>
                (r.value.Stored? <==> AllBefore(PlacesOf(Received(old(chunks))), place))
      ensures r.Failure? <==> !Holds(old(chunks), place)
                              || ((closed || expired) && forall c :: c in old(chunks) && c.place == place ==> !c.received)
    {
      hide Covers, EndsWithShort, Filter, OnGrid, AllBefore, Absentees, MaximalRuns;
      var found := Find(place);
      if found.None? {
        return Failure(if closed || expired then NotOpen else Unreserved);
      }
      var k := found.value;
      OneHolderOnGrid(chunks, cell, k);
      assert chunks[k] in chunks;
      if chunks[k].received {
        assert chunks[k := chunks[k].(received := true)] == chunks;
        return Success(Duplicate);
      }
      if closed || expired {
        return Failure(NotOpen);
      }
      var places := PlacesOf(Received(chunks));
      var ranges, top := Gaps(places);
      InOrderPlaces(chunks, cell, places);
      NoGapsMeansAllBefore(places, ranges, top);
      var disposition := if place == |places| && ranges == [] then Stored else OutOfOrder;
      MarkedStaysOnGrid(chunks, cell, k);
      chunks := chunks[k := chunks[k].(received := true)];
      return Success(disposition);
    }

    /** Closes the capture; a duration may disclose a missing tail but never cut received media. */
    method Close(declared: Option<nat>, keepResearching: bool) returns (refused: Option<Refusal>)
      requires Valid()
      modifies this
      ensures Valid() && chunks == old(chunks)
      ensures var effective := if declared.Some? then declared.value else LastEnd(old(chunks));
              && (refused.None? <==>
                    if old(closed) then old(continueResearch) == keepResearching && old(duration) == Some(effective)
                    else Covers(old(chunks), effective) && EndsWithShort(old(chunks), cell, effective))
              && (refused.None? ==> closed && duration == Some(effective) && continueResearch == keepResearching)
      ensures refused.Some? ==> closed == old(closed) && duration == old(duration) && continueResearch == old(continueResearch)
    {
      hide OnGrid, LastEnd;
      var effective := if declared.Some? then declared.value else LastEnd(chunks);
      if closed {
        return if continueResearch != keepResearching || duration != Some(effective) then Some(CloseConflict) else None;
      }
      if exists c :: c in chunks && c.received && c.endMs > effective {
        return Some(Truncates);
      }
      if exists c :: c in chunks && c.received && Short(c, cell) && c.endMs != effective {
        return Some(NotFinal);
      }
      closed, duration, continueResearch := true, Some(effective), keepResearching;
      return None;
    }

    /** Whatever was reserved, received and closed before, the manifest accounts for every millisecond. */
    method Describe() returns (m: Manifest)
      requires Valid()
      ensures Tiles(m, chunks, cell) && m.durationMs == if closed then duration.value else LastEnd(chunks)
    {
      hide Tiles, OnGrid, Covers, LastEnd;
      m := BuildManifest(chunks, cell, duration);
    }
  }

  lemma InOrderPlaces(chunks: seq<Chunk>, cell: nat, places: seq<nat>)
    requires OnGrid(chunks, cell) && places == PlacesOf(Received(chunks))
    ensures AllDifferent(places)
  {
    hide Filter, Start;
    FilterDistinct(chunks, (c: Chunk) => c.received, Place);
    assert forall i, j :: 0 <= i < j < |places| ==> Place(Received(chunks)[i]) != Place(Received(chunks)[j]);
  }
}
