/** Subtitle anchors of the speech experiment: provider segments whose words the alignment maps to
    whole subtitle cues. Provider times are real seconds; every other time is in milliseconds. */
module SubtitleAnchors {
  import opened Wrappers
  import opened Alignment

  datatype Cue = Cue(startMs: int, endMs: int, words: seq<Token>)

  /** A time a provider reports, in seconds from the start of its chunk; `Unusable` is one that is
      not a number or not finite. */
  datatype Timestamp = Seconds(value: real) | Unusable

  datatype Segment = Segment(start: Timestamp, end: Timestamp, words: seq<Token>)

  datatype Chunk = Chunk(number: int, startMs: int, endMs: int, segments: seq<Segment>)

  datatype Row = Row(chunkSeq: int, segmentIndex: nat, startMs: int, endMs: int, first: nat, end: nat)

  datatype Match = Match(row: Row, referenceStartMs: int, referenceEndMs: int,
                         startDeltaMs: int, endDeltaMs: int)

  /** The words of a run of cues, one cue behind another. */
  function Spoken(cues: seq<Cue>): seq<Token> {
    if cues == [] then [] else Spoken(cues[..|cues| - 1]) + cues[|cues| - 1].words
  }

  /** The position of the first word of cue k. */
  function Offset(cues: seq<Cue>, k: nat): nat
    requires k <= |cues|
  {
    |Spoken(cues[..k])|
  }

  // ----- Equal edits -----

  /** Kept tokens never cross: of two of them, the earlier in one text is the earlier in the other. */
  lemma {:induction false} EqualsInOrder(s: seq<Edit>, r: seq<Token>, h: seq<Token>, i: nat, j: nat)
    requires Aligns(s, r, h, i, j)
    ensures forall a: nat, b: nat, c: nat, d: nat :: Equal(a, b) in s && Equal(c, d) in s ==> (a < c <==> b < d)
    ensures forall a: nat, b: nat :: Equal(a, b) in s ==> a < |r| && b < |h| && r[a] == h[b]
    decreases |s|
  {
    if s != [] {
      var e, before := s[|s| - 1], s[..|s| - 1];
      var i', j' := if e.Insertion? then i else e.i, if e.Deletion? then j else e.j;
      AlignsBounds(before, r, h, i', j');
      EqualsInOrder(before, r, h, i', j');
      assert forall x :: x in s <==> x in before || x == e by {
        assert s == before + [e];
      }
    }
  }

  /** Hypothesis position j is kept from reference position j + shift. */
  ghost predicate Maps(edits: seq<Edit>, j: nat, shift: int) {
    j + shift >= 0 && Equal(j + shift, j) in edits
  }

  /** The script keeps the words of a row one by one, from one run of reference positions. */
  ghost predicate RunOf(edits: seq<Edit>, row: Row, shift: int) {
    forall t :: row.first <= t < row.end ==> Maps(edits, t, shift)
  }

  /** A nonempty segment whose words the script keeps one by one, from a reference position where
      a cue starts to one where a cue ends. */
  ghost predicate Anchors(cues: seq<Cue>, edits: seq<Edit>, row: Row, shift: int) {
    && row.first < row.end
    && RunOf(edits, row, shift)
    && StartsCue(cues, row.first + shift) && EndsCue(cues, row.end + shift)
  }

  ghost predicate StartsCue(cues: seq<Cue>, position: int) {
    exists a :: 0 <= a < |cues| && Offset(cues, a) == position
  }

  ghost predicate EndsCue(cues: seq<Cue>, position: int) {
    exists b :: 0 < b <= |cues| && Offset(cues, b) == position
  }

  // ----- The word positions at which cues start and end -----

  lemma {:induction false} OffsetStep(cues: seq<Cue>, a: nat)
    requires a < |cues|
    ensures Offset(cues, a + 1) == Offset(cues, a) + |cues[a].words|
    ensures Spoken(cues[..a + 1]) == Spoken(cues[..a]) + cues[a].words
  {
    assert cues[..a + 1][..a] == cues[..a];
  }

  lemma {:induction false} SpokenSplit(a: seq<Cue>, b: seq<Cue>)
    ensures Spoken(a + b) == Spoken(a) + Spoken(b)
    decreases |b|
  {
    if b == [] {
      assert a + b == a;
    } else {
      assert (a + b)[..|a + b| - 1] == a + b[..|b| - 1];
      SpokenSplit(a, b[..|b| - 1]);
    }
  }

  /** The words between two cue boundaries are exactly those of the cues between them. */
  lemma WholeCues(cues: seq<Cue>, a: nat, b: nat)
    requires a <= b <= |cues|
    ensures Offset(cues, a) <= Offset(cues, b) <= |Spoken(cues)|
    ensures Spoken(cues)[Offset(cues, a)..Offset(cues, b)] == Spoken(cues[a..b])
  {
    assert cues == cues[..a] + cues[a..b] + cues[b..] && cues[..b] == cues[..a] + cues[a..b];
    SpokenSplit(cues[..a] + cues[a..b], cues[b..]);
    SpokenSplit(cues[..a], cues[a..b]);
  }

  // ----- The program -----

  /** Cue a is the last of the first k cues that starts at a word position, and cue b - 1 the last that
      ends there. */
  ghost predicate LastStart(cues: seq<Cue>, k: nat, position: int, a: nat)
    requires k <= |cues|
  {
    a < k && Offset(cues, a) == position && forall c :: a < c < k ==> Offset(cues, c) != position
  }

  ghost predicate LastEnd(cues: seq<Cue>, k: nat, position: int, b: nat)
    requires k <= |cues|
  {
    0 < b <= k && Offset(cues, b) == position && forall c :: b < c <= k ==> Offset(cues, c) != position
  }

  ghost predicate StartsAt(cues: seq<Cue>, k: nat, position: int, ms: int)
    requires k <= |cues|
  {
    exists a: nat :: LastStart(cues, k, position, a) && ms == cues[a].startMs
  }

  ghost predicate EndsAt(cues: seq<Cue>, k: nat, position: int, ms: int)
    requires k <= |cues|
  {
    exists b: nat :: LastEnd(cues, k, position, b) && ms == cues[b - 1].endMs
  }

  /** The times written for the first k cues; a position shared by several cues keeps the last. */
  ghost predicate StartTimes(cues: seq<Cue>, k: nat, starts: map<nat, int>)
    requires k <= |cues|
  {
    && (forall a :: 0 <= a < k ==> Offset(cues, a) in starts)
    && (forall p :: p in starts ==> StartsAt(cues, k, p, starts[p]))
  }

  ghost predicate EndTimes(cues: seq<Cue>, k: nat, ends: map<nat, int>)
    requires k <= |cues|
  {
    && (forall b :: 0 < b <= k ==> Offset(cues, b) in ends)
    && (forall p :: p in ends ==> EndsAt(cues, k, p, ends[p]))
  }

  lemma TimesStep(cues: seq<Cue>, k: nat, starts: map<nat, int>, ends: map<nat, int>)
    requires k < |cues| && StartTimes(cues, k, starts) && EndTimes(cues, k, ends)
    ensures StartTimes(cues, k + 1, starts[Offset(cues, k) := cues[k].startMs])
    ensures EndTimes(cues, k + 1, ends[Offset(cues, k + 1) := cues[k].endMs])
  {
    hide StartTimes, EndTimes, Offset;
    StartStep(cues, k, starts);
    EndStep(cues, k, ends);
  }

  lemma StartStep(cues: seq<Cue>, k: nat, starts: map<nat, int>)
    requires k < |cues| && StartTimes(cues, k, starts)
    ensures StartTimes(cues, k + 1, starts[Offset(cues, k) := cues[k].startMs])
  {
    hide Offset;
    var s := starts[Offset(cues, k) := cues[k].startMs];
    forall p | p in s ensures StartsAt(cues, k + 1, p, s[p]) {
      if p != Offset(cues, k) {
        var a: nat :| LastStart(cues, k, p, a) && starts[p] == cues[a].startMs;
        assert LastStart(cues, k + 1, p, a);
      } else {
        assert LastStart(cues, k + 1, p, k);
      }
    }
  }

  lemma EndStep(cues: seq<Cue>, k: nat, ends: map<nat, int>)
    requires k < |cues| && EndTimes(cues, k, ends)
    ensures EndTimes(cues, k + 1, ends[Offset(cues, k + 1) := cues[k].endMs])
  {
    hide Offset;
    var e := ends[Offset(cues, k + 1) := cues[k].endMs];
    forall p | p in e ensures EndsAt(cues, k + 1, p, e[p]) {
      if p != Offset(cues, k + 1) {
        var b: nat :| LastEnd(cues, k, p, b) && ends[p] == cues[b - 1].endMs;
        assert LastEnd(cues, k + 1, p, b);
      } else {
        assert LastEnd(cues, k + 1, p, k + 1);
      }
    }
  }

  /** The words of the reference, and the times at which cues start and end by word position. */
  method ReadCues(cues: seq<Cue>) returns (words: seq<Token>, starts: map<nat, int>, ends: map<nat, int>)
    ensures words == Spoken(cues)
    ensures StartTimes(cues, |cues|, starts) && EndTimes(cues, |cues|, ends)
  {
    hide Spoken, StartTimes, EndTimes;
    words, starts, ends := [], map[], map[];
    NothingRead(cues);
    for k := 0 to |cues|
      invariant words == Spoken(cues[..k])
      invariant StartTimes(cues, k, starts) && EndTimes(cues, k, ends)
    {
      OffsetStep(cues, k);
      TimesStep(cues, k, starts, ends);
      starts := starts[|words| := cues[k].startMs];
      words := words + cues[k].words;
      ends := ends[|words| := cues[k].endMs];
    }
    assert cues[..|cues|] == cues;
  }

  lemma NothingRead(cues: seq<Cue>)
    ensures Spoken(cues[..0]) == [] && StartTimes(cues, 0, map[]) && EndTimes(cues, 0, map[])
  {
  }

  /** A provider segment with the chunk it came in. */
  datatype Placed = Placed(chunkSeq: int, offsetMs: int, lengthMs: int, index: nat, segment: Segment)

  function InChunk(chunk: Chunk, count: nat): seq<Placed>
    requires count <= |chunk.segments|
  {
    seq(count, k requires 0 <= k < count => PlacedIn(chunk, k))
  }

  function PlacedIn(chunk: Chunk, k: nat): Placed
    requires k < |chunk.segments|
  {
    Placed(chunk.number, chunk.startMs, chunk.endMs - chunk.startMs, k, chunk.segments[k])
  }

  /** Both times are finite numbers and not reversed. */
  predicate Timed(segment: Segment) {
    segment.start.Seconds? && segment.end.Seconds? && segment.start.value <= segment.end.value
  }

  ghost predicate AllTimed(placed: seq<Placed>) {
    forall k :: 0 <= k < |placed| ==> Timed(placed[k].segment)
  }

  /** Nearest integer; a half goes to the even neighbour. */
  function Rounded(x: real): int {
    var below := x.Floor;
    var rest := x - below as real;
    if rest < 0.5 || (rest == 0.5 && below % 2 == 0) then below else below + 1
  }

  /** Times that leave the segment's chunk. */
  predicate Outside(p: Placed)
    requires Timed(p.segment)
  {
    p.segment.start.value < 0.0 || p.segment.end.value * 1000.0 > p.lengthMs as real
  }

  /** Every segment of the chunks, in order. */
  function Listed(chunks: seq<Chunk>): seq<Placed> {
    if chunks == [] then []
    else
      var last := chunks[|chunks| - 1];
      Listed(chunks[..|chunks| - 1]) + InChunk(last, |last.segments|)
  }

  /** One row per segment: its words are hypothesis[first..end], rows follow one another, and the
      chunk's start is added to its rounded times. */
  ghost predicate RowsFor(rows: seq<Row>, placed: seq<Placed>, hypothesis: seq<Token>) {
    && |rows| == |placed| && AllTimed(placed)
    && (forall k :: 0 <= k < |rows| ==> RowFor(rows[k], placed[k], hypothesis))
    && (forall a, b :: 0 <= a < b < |rows| ==> rows[a].end <= rows[b].first)
  }

  ghost predicate RowFor(row: Row, p: Placed, hypothesis: seq<Token>)
    requires Timed(p.segment)
  {
    && row.first <= row.end <= |hypothesis| && hypothesis[row.first..row.end] == p.segment.words
    && row.chunkSeq == p.chunkSeq && row.segmentIndex == p.index
    && row.startMs == Rounded(p.segment.start.value * 1000.0) + p.offsetMs
    && row.endMs == Rounded(p.segment.end.value * 1000.0) + p.offsetMs
  }

  /** The rows of the segments whose times leave their chunk, in order. */
  ghost function OutsideRows(rows: seq<Row>, placed: seq<Placed>): seq<Row>
    requires |rows| == |placed| && AllTimed(placed)
  {
    if rows == [] then []
    else
      var n := |rows| - 1;
      OutsideRows(rows[..n], placed[..n]) + if Outside(placed[n]) then [rows[n]] else []
  }

  /** The words of the segments, one behind another. */
  function Words(placed: seq<Placed>): seq<Token> {
    if placed == [] then [] else Words(placed[..|placed| - 1]) + placed[|placed| - 1].segment.words
  }

  /** What reading the segments found: their words, their rows and the rows flagged as outside. */
  ghost predicate Read(placed: seq<Placed>, hypothesis: seq<Token>, rows: seq<Row>, outside: seq<Row>) {
    && hypothesis == Words(placed) && RowsFor(rows, placed, hypothesis) && outside == OutsideRows(rows, placed)
  }

  /** The first segment without proper times stops the reading. */
  method ReadChunks(chunks: seq<Chunk>)
    returns (timed: bool, hypothesis: seq<Token>, rows: seq<Row>, outside: seq<Row>)
    ensures timed <==> AllTimed(Listed(chunks))
    ensures timed ==> Read(Listed(chunks), hypothesis, rows, outside)
  {
    hide Read, Listed, AllTimed, Timed;
    hypothesis, rows, outside := [], [], [];
    NothingListed(chunks);
    for c := 0 to |chunks|
      invariant Read(Listed(chunks[..c]), hypothesis, rows, outside)
    {
      var chunk := chunks[c];
      ghost var listed := Listed(chunks[..c]);
      assert listed + InChunk(chunk, 0) == listed;
      for index := 0 to |chunk.segments|
        invariant Read(listed + InChunk(chunk, index), hypothesis, rows, outside)
      {
        var segment := chunk.segments[index];
        if !Timed(segment) {
          NotAllTimed(chunks, c, index);
          return false, hypothesis, rows, outside;
        }
        var row := RowOf(PlacedIn(chunk, index), |hypothesis|);
        ReadStep(listed + InChunk(chunk, index), hypothesis, rows, outside, PlacedIn(chunk, index));
        hypothesis := hypothesis + segment.words;
        rows := rows + [row];
        assert outside + [] == outside;
        if Outside(PlacedIn(chunk, index)) {
          outside := outside + [row];
        }
        assert listed + InChunk(chunk, index + 1) == listed + InChunk(chunk, index) + [PlacedIn(chunk, index)];
      }
      assert listed + InChunk(chunk, |chunk.segments|) == Listed(chunks[..c + 1]) by { ListedStep(chunks, c); }
    }
    assert chunks[..|chunks|] == chunks;
    ReadAreTimed(Listed(chunks), hypothesis, rows, outside);
    timed := true;
  }

  function RowOf(p: Placed, first: nat): Row
    requires Timed(p.segment)
  {
    Row(p.chunkSeq, p.index, Rounded(p.segment.start.value * 1000.0) + p.offsetMs,
        Rounded(p.segment.end.value * 1000.0) + p.offsetMs, first, first + |p.segment.words|)
  }

  lemma NothingListed(chunks: seq<Chunk>)
    ensures Listed(chunks[..0]) == [] && Read([], [], [], [])
  {
  }

  lemma ReadAreTimed(placed: seq<Placed>, hypothesis: seq<Token>, rows: seq<Row>, outside: seq<Row>)
    requires Read(placed, hypothesis, rows, outside)
    ensures AllTimed(placed) && hypothesis == Words(placed)
  {
  }

  lemma NotAllTimed(chunks: seq<Chunk>, c: nat, index: nat)
    requires c < |chunks| && index < |chunks[c].segments| && !Timed(chunks[c].segments[index])
    ensures !AllTimed(Listed(chunks))
  {
    hide Timed;
    ListedInParts(chunks, c);
    ListedStep(chunks, c);
    var k := |Listed(chunks[..c])| + index;
    assert Listed(chunks)[k] == Listed(chunks[..c + 1])[k] == PlacedIn(chunks[c], index);
  }

  lemma {:induction false} ListedInParts(chunks: seq<Chunk>, c: nat)
    requires c < |chunks|
    ensures Listed(chunks[..c + 1]) <= Listed(chunks)
    decreases |chunks|
  {
    var n := |chunks| - 1;
    if c == n {
      assert chunks[..c + 1] == chunks;
    } else {
      ListedInParts(chunks[..n], c);
      assert chunks[..n][..c + 1] == chunks[..c + 1];
    }
  }

  lemma ListedStep(chunks: seq<Chunk>, c: nat)
    requires c < |chunks|
    ensures Listed(chunks[..c + 1]) == Listed(chunks[..c]) + InChunk(chunks[c], |chunks[c].segments|)
  {
    assert chunks[..c + 1][..c] == chunks[..c];
  }

  lemma ReadStep(placed: seq<Placed>, hypothesis: seq<Token>, rows: seq<Row>, outside: seq<Row>, p: Placed)
    requires Read(placed, hypothesis, rows, outside) && Timed(p.segment)
    ensures var row := RowOf(p, |hypothesis|);
            Read(placed + [p], hypothesis + p.segment.words, rows + [row], outside + if Outside(p) then [row] else [])
  {
    hide Rounded, Outside;
    var row := RowOf(p, |hypothesis|);
    RowsGrow(rows, placed, hypothesis, p);
    assert (rows + [row])[..|rows|] == rows && (placed + [p])[..|rows|] == placed;
  }

  lemma RowsGrow(rows: seq<Row>, placed: seq<Placed>, hypothesis: seq<Token>, p: Placed)
    requires RowsFor(rows, placed, hypothesis) && Timed(p.segment)
    ensures RowsFor(rows + [RowOf(p, |hypothesis|)], placed + [p], hypothesis + p.segment.words)
  {
    hide Rounded;
    var longer := hypothesis + p.segment.words;
    var row := RowOf(p, |hypothesis|);
    forall k | 0 <= k < |rows| ensures RowFor(rows[k], placed[k], longer) {
      assert longer[rows[k].first..rows[k].end] == hypothesis[rows[k].first..rows[k].end];
    }
    assert longer[row.first..row.end] == p.segment.words;
  }

  /** The reference position of every kept hypothesis position. */
  method ReadMapping(edits: seq<Edit>, r: seq<Token>, h: seq<Token>) returns (mapping: map<nat, nat>)
    requires Aligns(edits, r, h, |r|, |h|)
    ensures forall i: nat, j: nat :: Equal(i, j) in edits <==> j in mapping && mapping[j] == i
  {
    mapping := map[];
    EqualsInOrder(edits, r, h, |r|, |h|);
    for k := 0 to |edits|
      invariant forall i: nat, j: nat :: Equal(i, j) in edits[..k] <==> j in mapping && mapping[j] == i
    {
      var e := edits[k];
      assert edits[..k + 1] == edits[..k] + [e] && e in edits;
      forall i: nat | e.Equal? && Equal(i, e.j) in edits[..k] ensures i == e.i {
        assert Equal(i, e.j) in edits;
      }
      if e.Equal? { mapping := mapping[e.j := e.i]; }
    }
    assert edits[..|edits|] == edits;
  }

  /** The program's test of one row: every word is mapped and the positions are consecutive. */
  predicate Consecutive(mapping: map<nat, nat>, row: Row) {
    && row.first < row.end && row.first in mapping
    && forall t :: row.first <= t < row.end ==> t in mapping && mapping[t] == mapping[row.first] + t - row.first
  }

  /** The test finds exactly the rows that the script keeps as one run. */
  lemma ConsecutiveIffKept(mapping: map<nat, nat>, edits: seq<Edit>, row: Row)
    requires forall i: nat, j: nat :: Equal(i, j) in edits <==> j in mapping && mapping[j] == i
    ensures Consecutive(mapping, row) <==> row.first < row.end && exists shift :: RunOf(edits, row, shift)
    ensures Consecutive(mapping, row) ==>
              forall shift :: RunOf(edits, row, shift) <==> shift == mapping[row.first] - row.first
  {
    if Consecutive(mapping, row) {
      var shift := mapping[row.first] - row.first;
      forall t: nat | row.first <= t < row.end ensures Maps(edits, t, shift) {
        assert Equal(mapping[t], t) in edits;
      }
      assert RunOf(edits, row, shift);
      forall d | RunOf(edits, row, d) ensures d == shift {
        assert Maps(edits, row.first, d);
      }
    }
    if row.first < row.end && exists shift :: RunOf(edits, row, shift) {
      var shift :| RunOf(edits, row, shift);
      assert Maps(edits, row.first, shift);
      forall t: nat | row.first <= t < row.end ensures t in mapping && mapping[t] == t + shift {
        assert Maps(edits, t, shift);
      }
    }
  }

  /** The times of a match are those of the cues its words start and end with. */
  ghost predicate TimedBy(cues: seq<Cue>, m: Match, shift: int) {
    && StartsAt(cues, |cues|, m.row.first + shift, m.referenceStartMs)
    && EndsAt(cues, |cues|, m.row.end + shift, m.referenceEndMs)
    && m.startDeltaMs == m.row.startMs - m.referenceStartMs && m.endDeltaMs == m.row.endMs - m.referenceEndMs
  }

  ghost predicate Anchored(cues: seq<Cue>, edits: seq<Edit>, row: Row) {
    exists shift :: Anchors(cues, edits, row, shift)
  }

  /** The matches are the anchored rows, in order, each with the times of its cues. */
  ghost predicate MatchesFor(cues: seq<Cue>, edits: seq<Edit>, rows: seq<Row>, matches: seq<Match>) {
    if rows == [] then matches == []
    else
      var row, before := rows[|rows| - 1], rows[..|rows| - 1];
      if !Anchored(cues, edits, row) then MatchesFor(cues, edits, before, matches)
      else
        && matches != [] && MatchesFor(cues, edits, before, matches[..|matches| - 1])
        && matches[|matches| - 1].row == row
        && exists shift :: Anchors(cues, edits, row, shift) && TimedBy(cues, matches[|matches| - 1], shift)
  }

  /** One match for an anchored row, none for any other. */
  ghost predicate Found(cues: seq<Cue>, edits: seq<Edit>, row: Row, found: seq<Match>) {
    if Anchored(cues, edits, row)
    then |found| == 1 && found[0].row == row
         && exists shift :: Anchors(cues, edits, row, shift) && TimedBy(cues, found[0], shift)
    else found == []
  }

  lemma TimesFound(cues: seq<Cue>, starts: map<nat, int>, ends: map<nat, int>, left: nat, right: nat)
    requires StartTimes(cues, |cues|, starts) && EndTimes(cues, |cues|, ends)
    ensures left in starts <==> StartsCue(cues, left)
    ensures left in starts ==> StartsAt(cues, |cues|, left, starts[left])
    ensures right in ends <==> EndsCue(cues, right)
    ensures right in ends ==> EndsAt(cues, |cues|, right, ends[right])
  {
  }

  method MatchRow(cues: seq<Cue>, edits: seq<Edit>, row: Row, mapping: map<nat, nat>,
                  starts: map<nat, int>, ends: map<nat, int>)
    returns (found: seq<Match>)
    requires forall i: nat, j: nat :: Equal(i, j) in edits <==> j in mapping && mapping[j] == i
    requires StartTimes(cues, |cues|, starts) && EndTimes(cues, |cues|, ends)
    ensures Found(cues, edits, row, found)
  {
    hide RunOf, StartTimes, EndTimes, StartsCue, EndsCue, Offset;
    ConsecutiveIffKept(mapping, edits, row);
    if !Consecutive(mapping, row) {
      return [];
    }
    var left := mapping[row.first];
    var right := left + row.end - row.first;
    hide Consecutive;
    TimesFound(cues, starts, ends, left, right);
    if left !in starts || right !in ends {
      return [];
    }
    found := [Match(row, starts[left], ends[right], row.startMs - starts[left], row.endMs - ends[right])];
    assert Anchors(cues, edits, row, left - row.first);
    assert TimedBy(cues, found[0], left - row.first);
  }

  /** Provider segments, the rows flagged as outside their chunk, and the matches. */
  datatype Timing = Timing(hypothesis: seq<Token>, rows: seq<Row>, outside: seq<Row>, matches: seq<Match>)

  const BAD_TIMES := "provider timestamps: non-finite, reversed or nonnumeric segment"

  method SubtitleTiming(cues: seq<Cue>, chunks: seq<Chunk>) returns (result: Result<Timing, string>)
    ensures !AllTimed(Listed(chunks)) ==> result == Failure(BAD_TIMES)
    ensures result.Success? <==> AllTimed(Listed(chunks))
                                 && |Spoken(cues)| <= MAX_TOKENS && |Words(Listed(chunks))| <= MAX_TOKENS
    ensures result.Success? ==> Read(Listed(chunks), result.value.hypothesis, result.value.rows, result.value.outside)
    ensures result.Success? ==>
              var t := result.value;
              MatchesFor(cues, Script(Spoken(cues), t.hypothesis, |Spoken(cues)|, |t.hypothesis|), t.rows, t.matches)
  {
    hide Script, Listed, MatchesFor, Read, AllTimed, Anchored, Anchors, TimedBy, StartsCue, EndsCue, Aligns;
    var words, starts, ends := ReadCues(cues);
    var timed, heard, rows, outside := ReadChunks(chunks);
    if !timed {
      return Failure(BAD_TIMES);
    }
    ReadAreTimed(Listed(chunks), heard, rows, outside);
    var aligned := Align(words, heard);
    if aligned.Failure? {
      return Failure(aligned.error);
    }
    var edits := aligned.value;
    ScriptIsOptimal(words, heard, |words|, |heard|);
    var mapping := ReadMapping(edits, words, heard);
    var matches: seq<Match> := [];
    NoMatches(cues, edits);
    for k := 0 to |rows|
      invariant MatchesFor(cues, edits, rows[..k], matches)
    {
      var found := MatchRow(cues, edits, rows[k], mapping, starts, ends);
      NextMatch(cues, edits, rows, k, matches, found);
      matches := matches + found;
    }
    assert rows[..|rows|] == rows;
    return Success(Timing(heard, rows, outside, matches));
  }

  lemma NoMatches(cues: seq<Cue>, edits: seq<Edit>)
    ensures MatchesFor(cues, edits, [], [])
  {
  }

  lemma NextMatch(cues: seq<Cue>, edits: seq<Edit>, rows: seq<Row>, k: nat, matches: seq<Match>, found: seq<Match>)
    requires k < |rows| && MatchesFor(cues, edits, rows[..k], matches)
    requires Found(cues, edits, rows[k], found)
    ensures MatchesFor(cues, edits, rows[..k + 1], matches + found)
  {
    assert rows[..k + 1][..k] == rows[..k];
    if found == [] {
      assert matches + found == matches;
    } else {
      assert (matches + found)[..|matches|] == matches;
    }
  }

  // ----- What a match means -----

  /** Rounding keeps every row within half a millisecond of the times reported for it, and its times
      in order. */
  lemma RowTimes(placed: seq<Placed>, hypothesis: seq<Token>, rows: seq<Row>, k: nat)
    requires RowsFor(rows, placed, hypothesis) && k < |rows|
    ensures var p := placed[k];
            && rows[k].startMs <= rows[k].endMs
            && -0.5 <= (rows[k].startMs - p.offsetMs) as real - p.segment.start.value * 1000.0 <= 0.5
            && -0.5 <= (rows[k].endMs - p.offsetMs) as real - p.segment.end.value * 1000.0 <= 0.5
  {
    var s := placed[k].segment;
  }

  /** Times are proper when both are numbers and not reversed. */
  ghost predicate ProperTimes(segment: Segment) {
    segment.start.Seconds? && segment.end.Seconds? && segment.start.value <= segment.end.value
  }

  /** Segment s of chunk c stands behind all segments of earlier chunks and the earlier ones of its own. */
  lemma {:induction false} ListedAt(chunks: seq<Chunk>, c: nat, s: nat)
    requires c < |chunks| && s < |chunks[c].segments|
    ensures var k, chunk := |Listed(chunks[..c])| + s, chunks[c];
            && k < |Listed(chunks)|
            && Listed(chunks)[k] == Placed(chunk.number, chunk.startMs, chunk.endMs - chunk.startMs, s, chunk.segments[s])
    decreases |chunks|
  {
    var n := |chunks| - 1;
    assert chunks[..n + 1] == chunks;
    if c < n {
      ListedAt(chunks[..n], c, s);
      assert chunks[..n][..c] == chunks[..c];
    }
  }

  lemma {:induction false} ListedHasSegments(chunks: seq<Chunk>)
    ensures |Listed(chunks)| > 0 ==> |chunks| > 0
    ensures forall p :: p in Listed(chunks) ==> exists c :: c in chunks && p.segment in c.segments
  {
    if chunks != [] {
      var n := |chunks| - 1;
      ListedHasSegments(chunks[..n]);
      assert chunks == chunks[..n] + [chunks[n]];
      forall p | p in Listed(chunks) ensures exists c :: c in chunks && p.segment in c.segments {
        if p in InChunk(chunks[n], |chunks[n].segments|) {
          var k :| 0 <= k < |chunks[n].segments| && PlacedIn(chunks[n], k) == p;
          assert chunks[n] in chunks;
        }
      }
    }
  }

  /** Reading stops exactly when some segment has no proper times. */
  lemma TimedIffProper(chunks: seq<Chunk>)
    ensures AllTimed(Listed(chunks)) <==> forall c, x :: c in chunks && x in c.segments ==> ProperTimes(x)
  {
    if AllTimed(Listed(chunks)) {
      forall c, x | c in chunks && x in c.segments ensures ProperTimes(x) {
        var i :| 0 <= i < |chunks| && chunks[i] == c;
        var s :| 0 <= s < |c.segments| && c.segments[s] == x;
        ListedAt(chunks, i, s);
        assert Timed(Listed(chunks)[|Listed(chunks[..i])| + s].segment);
      }
    } else {
      var k :| 0 <= k < |Listed(chunks)| && !Timed(Listed(chunks)[k].segment);
      ListedHasSegments(chunks);
      assert Listed(chunks)[k] in Listed(chunks);
      var c :| c in chunks && Listed(chunks)[k].segment in c.segments;
      assert !ProperTimes(Listed(chunks)[k].segment);
    }
  }

  lemma {:induction false} OutsideIff(rows: seq<Row>, placed: seq<Placed>, k: nat)
    requires |rows| == |placed| && AllTimed(placed) && k < |rows|
    ensures Outside(placed[k]) ==> rows[k] in OutsideRows(rows, placed)
    ensures forall x :: x in OutsideRows(rows, placed) ==> exists i :: 0 <= i < |rows| && rows[i] == x && Outside(placed[i])
  {
    var n := |rows| - 1;
    if n > 0 {
      OutsideIff(rows[..n], placed[..n], if k < n then k else 0);
    }
  }

  /** What the result reports for segment s of chunk c: its words, its times on the clock of the capture,
      each within half a millisecond, and among the rows outside exactly when the times leave the chunk. */
  lemma SegmentReported(chunks: seq<Chunk>, t: Timing, c: nat, s: nat)
    requires c < |chunks| && s < |chunks[c].segments|
    requires AllTimed(Listed(chunks)) && Read(Listed(chunks), t.hypothesis, t.rows, t.outside)
    ensures var k, chunk := |Listed(chunks[..c])| + s, chunks[c];
            var segment := chunk.segments[s];
            && k < |t.rows| && ProperTimes(segment)
            && var row := t.rows[k];
               && row.chunkSeq == chunk.number && row.segmentIndex == s
               && row.first <= row.end <= |t.hypothesis| && t.hypothesis[row.first..row.end] == segment.words
               && -0.5 <= (row.startMs - chunk.startMs) as real - segment.start.value * 1000.0 <= 0.5
               && -0.5 <= (row.endMs - chunk.startMs) as real - segment.end.value * 1000.0 <= 0.5
               && (segment.start.value < 0.0 || segment.end.value * 1000.0 > (chunk.endMs - chunk.startMs) as real ==>
                     row in t.outside)
  {
    hide Listed, Rounded;
    var placed, k := Listed(chunks), |Listed(chunks[..c])| + s;
    ListedAt(chunks, c, s);
    RowTimes(placed, t.hypothesis, t.rows, k);
    OutsideIff(t.rows, placed, k);
  }

  /** Every anchored segment says, word for word, a run of whole cues. */
  lemma AnchorIsWholeCues(cues: seq<Cue>, h: seq<Token>, edits: seq<Edit>, row: Row, shift: int)
    requires Aligns(edits, Spoken(cues), h, |Spoken(cues)|, |h|)
    requires Anchors(cues, edits, row, shift) && row.end <= |h|
    ensures exists a: nat, b: nat ::
              a < b <= |cues| && Offset(cues, a) == row.first + shift && Offset(cues, b) == row.end + shift
              && h[row.first..row.end] == Spoken(cues[a..b])
  {
    var words := Spoken(cues);
    EqualsInOrder(edits, words, h, |words|, |h|);
    var a: nat :| a < |cues| && Offset(cues, a) == row.first + shift;
    var b: nat :| 0 < b <= |cues| && Offset(cues, b) == row.end + shift;
    if b <= a { WholeCues(cues, b, a); }
    WholeCues(cues, a, b);
    forall t: nat | row.first <= t < row.end ensures t + shift < |words| && h[t] == words[t + shift] {
      assert Maps(edits, t, shift);
    }
    assert h[row.first..row.end] == words[row.first + shift..row.end + shift];
  }

  /** Of two matched rows the earlier one ends, in the cues, before the later one starts. */
  lemma AnchorsInOrder(cues: seq<Cue>, h: seq<Token>, edits: seq<Edit>, x: Row, sx: int, y: Row, sy: int)
    requires Aligns(edits, Spoken(cues), h, |Spoken(cues)|, |h|)
    requires Anchors(cues, edits, x, sx) && Anchors(cues, edits, y, sy) && x.end <= y.first
    ensures x.end + sx <= y.first + sy
  {
    EqualsInOrder(edits, Spoken(cues), h, |Spoken(cues)|, |h|);
    assert Maps(edits, x.end - 1, sx) && Maps(edits, y.first, sy);
  }

  /** A match says, word for word, the cues from a up to b, and has the times of the first and the last. */
  ghost predicate Repeats(cues: seq<Cue>, h: seq<Token>, m: Match, a: nat, b: nat) {
    && a < b <= |cues| && m.row.first < m.row.end <= |h|
    && h[m.row.first..m.row.end] == Spoken(cues[a..b])
    && m.referenceStartMs == cues[a].startMs && m.referenceEndMs == cues[b - 1].endMs
  }

  ghost predicate Placeable(cues: seq<Cue>, edits: seq<Edit>, m: Match, shift: int) {
    Anchors(cues, edits, m.row, shift) && TimedBy(cues, m, shift)
  }

  /** The matches are made of rows, in the order of the rows. */
  lemma {:induction false} MatchesFollowRows(cues: seq<Cue>, edits: seq<Edit>, rows: seq<Row>, matches: seq<Match>)
    requires MatchesFor(cues, edits, rows, matches)
    requires forall a, b :: 0 <= a < b < |rows| ==> rows[a].end <= rows[b].first
    ensures forall m :: m in matches ==> m.row in rows && exists shift :: Placeable(cues, edits, m, shift)
    ensures forall i, j :: 0 <= i < j < |matches| ==> matches[i].row.end <= matches[j].row.first
    decreases |rows|
  {
    hide Anchors, TimedBy;
    if rows != [] {
      var row, before := rows[|rows| - 1], rows[..|rows| - 1];
      assert rows == before + [row];
      if Anchored(cues, edits, row) {
        var last, earlier := matches[|matches| - 1], matches[..|matches| - 1];
        MatchesFollowRows(cues, edits, before, earlier);
        assert matches == earlier + [last];
        var shift :| Anchors(cues, edits, row, shift) && TimedBy(cues, last, shift);
        assert Placeable(cues, edits, last, shift);
        forall i | 0 <= i < |earlier| ensures earlier[i].row.end <= row.first {
          assert earlier[i] in earlier;
          var k :| 0 <= k < |before| && before[k] == earlier[i].row;
          assert rows[k] == before[k];
        }
      } else {
        MatchesFollowRows(cues, edits, before, matches);
      }
    }
  }

  lemma OffsetsGrow(cues: seq<Cue>, a: nat, b: nat)
    requires a <= |cues| && b <= |cues| && Offset(cues, a) < Offset(cues, b)
    ensures a < b
  {
    if b <= a { WholeCues(cues, b, a); }
  }

  lemma MatchRepeats(cues: seq<Cue>, h: seq<Token>, edits: seq<Edit>, m: Match, shift: int) returns (a: nat, b: nat)
    requires Aligns(edits, Spoken(cues), h, |Spoken(cues)|, |h|)
    requires Placeable(cues, edits, m, shift) && m.row.end <= |h|
    ensures Repeats(cues, h, m, a, b)
    ensures LastStart(cues, |cues|, m.row.first + shift, a) && LastEnd(cues, |cues|, m.row.end + shift, b)
  {
    hide Spoken, Offset, Aligns, EndsCue, StartsCue;
    a :| LastStart(cues, |cues|, m.row.first + shift, a) && m.referenceStartMs == cues[a].startMs;
    b :| LastEnd(cues, |cues|, m.row.end + shift, b) && m.referenceEndMs == cues[b - 1].endMs;
    OffsetsGrow(cues, a, b);
    AnchorIsWholeCues(cues, h, edits, m.row, shift);
    var c: nat, d: nat :| c < d <= |cues| && Offset(cues, c) == m.row.first + shift && Offset(cues, d) == m.row.end + shift
                          && h[m.row.first..m.row.end] == Spoken(cues[c..d]);
    WholeCues(cues, a, b);
    WholeCues(cues, c, d);
  }

  /** Cues of an earlier match come before those of a later one. */
  lemma CuesInOrder(cues: seq<Cue>, p: int, b: nat, q: int, a: nat, later: nat)
    requires LastEnd(cues, |cues|, p, b) && LastStart(cues, |cues|, q, a) && p <= q
    requires later <= |cues| && q < Offset(cues, later)
    ensures b <= a
  {
    hide Offset;
    if a < b {
      WholeCues(cues, a, b);
      WholeCues(cues, a + 1, b);
      if b == |cues| {
        OffsetsGrow(cues, b, later);
      }
      assert false;
    }
  }

  ghost predicate RunBy(cues: seq<Cue>, edits: seq<Edit>, m: Match, run: (nat, nat), shift: int) {
    && Placeable(cues, edits, m, shift)
    && LastStart(cues, |cues|, m.row.first + shift, run.0) && LastEnd(cues, |cues|, m.row.end + shift, run.1)
  }

  lemma EarlierRun(cues: seq<Cue>, h: seq<Token>, edits: seq<Edit>, x: Match, rx: (nat, nat), sx: int,
                   y: Match, ry: (nat, nat), sy: int)
    requires Aligns(edits, Spoken(cues), h, |Spoken(cues)|, |h|)
    requires RunBy(cues, edits, x, rx, sx) && RunBy(cues, edits, y, ry, sy) && x.row.end <= y.row.first
    ensures rx.1 <= ry.0
  {
    hide Spoken, Offset, Aligns, StartsCue, EndsCue;
    AnchorsInOrder(cues, h, edits, x.row, sx, y.row, sy);
    CuesInOrder(cues, x.row.end + sx, rx.1, y.row.first + sy, ry.0, ry.1);
  }

  ghost predicate HasRun(cues: seq<Cue>, h: seq<Token>, edits: seq<Edit>, m: Match, run: (nat, nat)) {
    Repeats(cues, h, m, run.0, run.1) && exists shift :: RunBy(cues, edits, m, run, shift)
  }

  lemma {:induction false} RunsOf(cues: seq<Cue>, h: seq<Token>, edits: seq<Edit>, matches: seq<Match>)
    returns (runs: seq<(nat, nat)>)
    requires Aligns(edits, Spoken(cues), h, |Spoken(cues)|, |h|)
    requires forall m :: m in matches ==> m.row.end <= |h| && exists shift :: Placeable(cues, edits, m, shift)
    requires forall i, j :: 0 <= i < j < |matches| ==> matches[i].row.end <= matches[j].row.first
    ensures |runs| == |matches|
    ensures forall k :: 0 <= k < |runs| ==> HasRun(cues, h, edits, matches[k], runs[k])
    ensures forall i, j :: 0 <= i < j < |runs| ==> runs[i].1 <= runs[j].0
    decreases |matches|
  {
    hide Spoken, Offset, Aligns, Placeable, Repeats, LastStart, LastEnd;
    runs := [];
    if matches != [] {
      var n := |matches| - 1;
      var before := matches[..n];
      assert forall m :: m in before ==> m in matches;
      var earlier := RunsOf(cues, h, edits, before);
      assert matches[n] in matches;
      var shift :| Placeable(cues, edits, matches[n], shift);
      var a, b := MatchRepeats(cues, h, edits, matches[n], shift);
      assert RunBy(cues, edits, matches[n], (a, b), shift);
      forall i | 0 <= i < n ensures HasRun(cues, h, edits, matches[i], earlier[i]) && earlier[i].1 <= a {
        assert matches[i] == before[i];
        var other :| RunBy(cues, edits, before[i], earlier[i], other);
        EarlierRun(cues, h, edits, matches[i], earlier[i], other, matches[n], (a, b), shift);
      }
      runs := earlier + [(a, b)];
    }
  }

  /** What the timing of subtitles promises in the end: every match repeats a run of whole cues word for
      word, and the runs of different matches are disjoint and in order. */
  lemma MatchesRepeatCues(cues: seq<Cue>, placed: seq<Placed>, t: Timing) returns (runs: seq<(nat, nat)>)
    requires Read(placed, t.hypothesis, t.rows, t.outside)
    requires MatchesFor(cues, Script(Spoken(cues), t.hypothesis, |Spoken(cues)|, |t.hypothesis|), t.rows, t.matches)
    ensures |runs| == |t.matches|
    ensures forall k :: 0 <= k < |runs| ==> Repeats(cues, t.hypothesis, t.matches[k], runs[k].0, runs[k].1)
    ensures forall i, j :: 0 <= i < j < |runs| ==> runs[i].1 <= runs[j].0
  {
    hide Script, Aligns, MatchesFor, Spoken, Repeats, Placeable, RunBy, Rounded, OutsideRows, Words;
    var words, h := Spoken(cues), t.hypothesis;
    var edits := Script(words, h, |words|, |h|);
    ScriptIsOptimal(words, h, |words|, |h|);
    MatchesFollowRows(cues, edits, t.rows, t.matches);
    forall m | m in t.matches ensures m.row.end <= |h| {
      var k :| 0 <= k < |t.rows| && t.rows[k] == m.row;
      assert RowFor(t.rows[k], placed[k], h);
    }
    runs := RunsOf(cues, h, edits, t.matches);
  }
}
