/** Linking of text detections into tracks over consecutive frames. */
module TrackLinking {
  import opened Alignment
  import opened BoxMatching

  datatype Detection = Detection(tokens: seq<Token>, box: Box)

  /** Detection `index` of frame `frame`. */
  datatype Observation = Observation(frame: nat, index: nat, box: Box)

  datatype Track = Track(tokens: seq<Token>, observations: seq<Observation>)

  type Frames = seq<seq<Detection>>

  ghost predicate AllBoxesValid(frames: Frames) {
    forall f, d :: 0 <= f < |frames| && 0 <= d < |frames[f]| ==> BoxValid(frames[f][d].box)
  }

  // ----- What the tracks promise -----

  /** `rows[f][d]` is the track of detection d of frame f. Together with the tracks this says that
      every detection belongs to exactly one track and nothing else does, that a track's tokens are
      those of its detections, and that it has one detection in each of a run of frames. */
  ghost predicate Partition(tracks: seq<Track>, rows: seq<seq<nat>>, frames: Frames) {
    && |rows| <= |frames| && (forall f :: 0 <= f < |rows| ==> |rows[f]| <= |frames[f]|)
    && (forall f, d :: 0 <= f < |rows| && 0 <= d < |rows[f]| ==>
          rows[f][d] < |tracks| && Observation(f, d, frames[f][d].box) in tracks[rows[f][d]].observations)
    && (forall t :: 0 <= t < |tracks| ==> TrackOk(tracks[t], t, rows, frames))
    && (forall f, d, e :: 0 <= f < |rows| && 0 <= d < e < |rows[f]| ==> rows[f][d] != rows[f][e])
  }

  ghost predicate TrackOk(track: Track, t: nat, rows: seq<seq<nat>>, frames: Frames) {
    && track.observations != []
    && forall k :: 0 <= k < |track.observations| ==>
         var o := track.observations[k];
         && o.frame < |rows| <= |frames| && o.index < |rows[o.frame]| <= |frames[o.frame]|
         && rows[o.frame][o.index] == t
         && o.box == frames[o.frame][o.index].box && track.tokens == frames[o.frame][o.index].tokens
         && o.frame == track.observations[0].frame + k
  }

  /** Detection e of the frame before may be continued by detection d of frame f. */
  ghost predicate Linkable(frames: Frames, threshold: nat, f: nat, e: nat, d: nat)
    requires AllBoxesValid(frames)
  {
    && 0 < f < |frames| && e < |frames[f - 1]| && d < |frames[f]|
    && frames[f - 1][e].tokens == frames[f][d].tokens
    && Overlap(frames, f, e, d) * 1000.0 >= threshold as real
  }

  ghost function Overlap(frames: Frames, f: nat, e: nat, d: nat): real
    requires AllBoxesValid(frames) && 0 < f < |frames| && e < |frames[f - 1]| && d < |frames[f]|
  {
    Iou(frames[f - 1][e].box, frames[f][d].box)
  }

  /** How detection d of frame f got its track. It continues some linkable detection of the frame
      before, or opens the next track. Either way, every linkable detection of the frame before was
      already continued in this frame, or overlaps less than the one chosen, or equally and comes later. */
  ghost predicate Linked(rows: seq<seq<nat>>, frames: Frames, threshold: nat, f: nat, d: nat)
    requires AllBoxesValid(frames) && f < |rows| && d < |rows[f]|
  {
    if f > 0 && rows[f][d] in rows[f - 1] then
      exists e :: Continues(rows, frames, threshold, f, e, d)
    else
      && NextNumber(rows, f, d)
      && forall e: nat :: Linkable(frames, threshold, f, e, d) && e < |rows[f - 1]| ==> rows[f - 1][e] in rows[f][..d]
  }

  ghost predicate Continues(rows: seq<seq<nat>>, frames: Frames, threshold: nat, f: nat, e: nat, d: nat)
    requires AllBoxesValid(frames) && f < |rows| && d < |rows[f]|
  {
    && Linkable(frames, threshold, f, e, d) && e < |rows[f - 1]| && rows[f - 1][e] == rows[f][d]
    && forall e': nat :: Linkable(frames, threshold, f, e', d) && e' < |rows[f - 1]| ==>
         rows[f - 1][e'] in rows[f][..d] || Behind(frames, f, e', e, d)
  }

  /** Detection e' of the frame before is no better a continuation than e. */
  ghost predicate Behind(frames: Frames, f: nat, e': nat, e: nat, d: nat)
    requires AllBoxesValid(frames) && 0 < f < |frames| && e < |frames[f - 1]| && e' < |frames[f - 1]| && d < |frames[f]|
  {
    Overlap(frames, f, e', d) < Overlap(frames, f, e, d) || (Overlap(frames, f, e', d) == Overlap(frames, f, e, d) && e <= e')
  }

  /** Entry k of frame g comes before entry d of frame f. */
  predicate Earlier(rows: seq<seq<nat>>, g: nat, k: nat, f: nat, d: nat) {
    g < |rows| && k < |rows[g]| && (g < f || (g == f && k < d))
  }

  /** The track of this entry is numbered next after all tracks opened before it. */
  ghost predicate NextNumber(rows: seq<seq<nat>>, f: nat, d: nat)
    requires f < |rows| && d < |rows[f]|
  {
    && (forall g: nat, k: nat :: Earlier(rows, g, k, f, d) ==> rows[g][k] < rows[f][d])
    && (rows[f][d] > 0 ==> exists g: nat, k: nat :: Earlier(rows, g, k, f, d) && rows[g][k] == rows[f][d] - 1)
  }

  ghost predicate AllLinked(rows: seq<seq<nat>>, frames: Frames, threshold: nat)
    requires AllBoxesValid(frames)
  {
    forall f, d :: 0 <= f < |rows| && 0 <= d < |rows[f]| ==> Linked(rows, frames, threshold, f, d)
  }

  // ----- One detection -----

  /** The rows with one more detection in the last of them. */
  function Extended(rows: seq<seq<nat>>, t: nat): seq<seq<nat>>
    requires rows != []
  {
    rows[..|rows| - 1] + [rows[|rows| - 1] + [t]]
  }

  lemma LinkedStays(rows: seq<seq<nat>>, t: nat, frames: Frames, threshold: nat)
    requires AllBoxesValid(frames) && rows != [] && AllLinked(rows, frames, threshold)
    requires var f, d := |rows| - 1, |rows[|rows| - 1]|; Linked(Extended(rows, t), frames, threshold, f, d)
    ensures AllLinked(Extended(rows, t), frames, threshold)
  {
    var longer := Extended(rows, t);
    var last := |rows| - 1;
    forall f, d | 0 <= f < |longer| && 0 <= d < |longer[f]| ensures Linked(longer, frames, threshold, f, d) {
      if f < last || d < |rows[last]| {
        assert Linked(rows, frames, threshold, f, d);
        assert longer[f][d] == rows[f][d] && longer[f][..d] == rows[f][..d];
        assert f > 0 ==> longer[f - 1] == rows[f - 1];
        assert forall g :: 0 <= g < f ==> longer[g] == rows[g];
        if f > 0 && rows[f][d] in rows[f - 1] {
          var e :| Continues(rows, frames, threshold, f, e, d);
          assert Continues(longer, frames, threshold, f, e, d);
        }
      }
    }
  }

  /** A track is not disturbed by a detection that goes to any track. */
  lemma TrackStays(track: Track, u: nat, rows: seq<seq<nat>>, frames: Frames, t: nat)
    requires rows != [] && TrackOk(track, u, rows, frames)
    requires |rows| <= |frames| && |rows[|rows| - 1]| < |frames[|rows| - 1]|
    ensures TrackOk(track, u, Extended(rows, t), frames)
  {
    var longer := Extended(rows, t);
    forall k | 0 <= k < |track.observations|
      ensures var o := track.observations[k]; o.frame < |longer| && o.index < |longer[o.frame]| && longer[o.frame][o.index] == u
    {
    }
  }

  /** A track that ends in the frame before takes the next detection with its tokens. */
  lemma TrackGrows(track: Track, t: nat, rows: seq<seq<nat>>, frames: Frames, o: Observation)
    requires |rows| > 1 && TrackOk(track, t, rows, frames)
    requires |rows| <= |frames| && |rows[|rows| - 1]| < |frames[|rows| - 1]|
    requires o == Observation(|rows| - 1, |rows[|rows| - 1]|, frames[|rows| - 1][|rows[|rows| - 1]|].box)
    requires track.tokens == frames[o.frame][o.index].tokens
    requires track.observations[|track.observations| - 1].frame == |rows| - 2
    ensures TrackOk(Track(track.tokens, track.observations + [o]), t, Extended(rows, t), frames)
  {
    TrackStays(track, t, rows, frames, t);
    var past, longer := track.observations, Extended(rows, t);
    forall k | 0 <= k <= |past|
      ensures var x := (past + [o])[k];
              && x.frame < |longer| && x.index < |longer[x.frame]| && longer[x.frame][x.index] == t
              && x.frame == (past + [o])[0].frame + k
    {
      if k < |past| { assert (past + [o])[k] == past[k]; }
    }
  }

  /** The bookkeeping of a partition after one more detection, given its tracks. */
  lemma PartitionGrows(tracks: seq<Track>, next: seq<Track>, rows: seq<seq<nat>>, frames: Frames, t: nat)
    requires rows != [] && Partition(tracks, rows, frames)
    requires |rows[|rows| - 1]| < |frames[|rows| - 1]| && t !in rows[|rows| - 1]
    requires t < |next| && |tracks| <= |next|
    requires forall u :: 0 <= u < |next| ==> TrackOk(next[u], u, Extended(rows, t), frames)
    requires forall u, o :: 0 <= u < |tracks| && o in tracks[u].observations ==> o in next[u].observations
    requires var f := |rows| - 1; var d := |rows[f]|;
             Observation(f, d, frames[f][d].box) in next[t].observations
    ensures Partition(next, Extended(rows, t), frames)
  {
    hide TrackOk;
    var longer := Extended(rows, t);
    var last := |rows| - 1;
    forall f, d | 0 <= f < |longer| && 0 <= d < |longer[f]|
      ensures longer[f][d] < |next| && Observation(f, d, frames[f][d].box) in next[longer[f][d]].observations
    {
      if f < last || d < |rows[last]| { assert longer[f][d] == rows[f][d]; }
    }
  }

  /** Appending the next detection to a track whose last one is in the frame before. */
  lemma Continued(tracks: seq<Track>, rows: seq<seq<nat>>, frames: Frames, t: nat)
    requires |rows| > 1 && Partition(tracks, rows, frames) && t < |tracks|
    requires var f := |rows| - 1; |rows[f]| < |frames[f]| && t !in rows[f]
    requires var f := |rows| - 1; var d := |rows[f]|;
             tracks[t].tokens == frames[f][d].tokens
             && tracks[t].observations != []
             && tracks[t].observations[|tracks[t].observations| - 1].frame == f - 1
    ensures var f := |rows| - 1; var d := |rows[f]|;
            Partition(tracks[t := Track(tracks[t].tokens,
                                        tracks[t].observations + [Observation(f, d, frames[f][d].box)])],
                      Extended(rows, t), frames)
  {
    hide TrackOk;
    var f := |rows| - 1;
    var d := |rows[f]|;
    var o := Observation(f, d, frames[f][d].box);
    var next := tracks[t := Track(tracks[t].tokens, tracks[t].observations + [o])];
    forall u | 0 <= u < |next| ensures TrackOk(next[u], u, Extended(rows, t), frames) {
      assert TrackOk(tracks[u], u, rows, frames);
      if u == t { TrackGrows(tracks[t], t, rows, frames, o); } else { TrackStays(tracks[u], u, rows, frames, t); }
    }
    PartitionGrows(tracks, next, rows, frames, t);
  }

  /** Opening a track for the next detection. */
  lemma Opened(tracks: seq<Track>, rows: seq<seq<nat>>, frames: Frames)
    requires rows != [] && Partition(tracks, rows, frames)
    requires var f := |rows| - 1; |rows[f]| < |frames[f]|
    ensures var f := |rows| - 1; var d := |rows[f]|;
            Partition(tracks + [Track(frames[f][d].tokens, [Observation(f, d, frames[f][d].box)])],
                      Extended(rows, |tracks|), frames)
  {
    var f := |rows| - 1;
    var d := |rows[f]|;
    var t := |tracks|;
    var next := tracks + [Track(frames[f][d].tokens, [Observation(f, d, frames[f][d].box)])];
    forall u | 0 <= u < |next| ensures TrackOk(next[u], u, Extended(rows, t), frames) {
      if u < t { TrackStays(tracks[u], u, rows, frames, t); }
    }
    assert forall k :: 0 <= k < |rows[f]| ==> rows[f][k] < t;
    PartitionGrows(tracks, next, rows, frames, t);
  }

  /** A track of the frame before that this frame has not continued ends in the frame before. */
  lemma LastObservation(tracks: seq<Track>, rows: seq<seq<nat>>, frames: Frames, e: nat)
    requires Partition(tracks, rows, frames) && |rows| > 1
    requires e < |rows[|rows| - 2]| && rows[|rows| - 2][e] !in rows[|rows| - 1]
    ensures var f := |rows| - 2;
            var o := tracks[rows[f][e]].observations;
            o != [] && o[|o| - 1] == Observation(f, e, frames[f][e].box)
            && tracks[rows[f][e]].tokens == frames[f][e].tokens
  {
    var f := |rows| - 2;
    var t := rows[f][e];
    assert TrackOk(tracks[t], t, rows, frames);
    var o := tracks[t].observations;
    var k :| 0 <= k < |o| && o[k] == Observation(f, e, frames[f][e].box);
    var last := o[|o| - 1];
    assert last.frame == o[0].frame + |o| - 1 && rows[last.frame][last.index] == t;
    assert t in rows[last.frame];
  }

  // ----- The program -----

  function LastBox(track: Track): Box
    requires track.observations != []
  {
    track.observations[|track.observations| - 1].box
  }

  /** Every active track still open in this frame exists and has a proper last box. */
  ghost predicate Ready(tracks: seq<Track>, active: seq<nat>, next: seq<nat>) {
    forall e :: 0 <= e < |active| && active[e] !in next ==>
      active[e] < |tracks| && tracks[active[e]].observations != [] && BoxValid(LastBox(tracks[active[e]]))
  }

  /** The test a track must pass to take a detection. */
  predicate Fits(tracks: seq<Track>, active: seq<nat>, next: seq<nat>, detection: Detection, threshold: nat, e: nat)
    requires Ready(tracks, active, next) && BoxValid(detection.box) && e < |active|
  {
    && active[e] !in next && tracks[active[e]].tokens == detection.tokens
    && Iou(LastBox(tracks[active[e]]), detection.box) * 1000.0 >= threshold as real
  }

  /** The first active track of greatest overlap among those that fit; `position` is its place. */
  method ChooseTrack(tracks: seq<Track>, active: seq<nat>, next: seq<nat>, detection: Detection, threshold: nat)
    returns (found: bool, position: nat)
    requires Ready(tracks, active, next) && BoxValid(detection.box)
    ensures found ==> position < |active| && Fits(tracks, active, next, detection, threshold, position)
    ensures found ==> forall e: nat :: e < |active| && Fits(tracks, active, next, detection, threshold, e) ==>
              var best := Iou(LastBox(tracks[active[position]]), detection.box);
              var other := Iou(LastBox(tracks[active[e]]), detection.box);
              other < best || (other == best && position <= e)
    ensures !found ==> forall e: nat :: e < |active| ==> !Fits(tracks, active, next, detection, threshold, e)
  {
    hide Iou;
    found, position := false, 0;
    for e := 0 to |active|
      invariant found ==> position < e && Fits(tracks, active, next, detection, threshold, position)
      invariant found ==> forall k: nat :: k < e && Fits(tracks, active, next, detection, threshold, k) ==>
                  var best := Iou(LastBox(tracks[active[position]]), detection.box);
                  var other := Iou(LastBox(tracks[active[k]]), detection.box);
                  other < best || (other == best && position <= k)
      invariant !found ==> forall k: nat :: k < e ==> !Fits(tracks, active, next, detection, threshold, k)
    {
      if Fits(tracks, active, next, detection, threshold, e) {
        if !found || Iou(LastBox(tracks[active[e]]), detection.box)
                   > Iou(LastBox(tracks[active[position]]), detection.box) {
          found, position := true, e;
        }
      }
    }
  }

  /** For tracks not yet continued in this frame, the test is exactly linkability. */
  lemma ReadyAndFits(tracks: seq<Track>, active: seq<nat>, rows: seq<seq<nat>>, frames: Frames, threshold: nat)
    requires AllBoxesValid(frames) && rows != [] && Partition(tracks, rows, frames)
    requires |rows[|rows| - 1]| < |frames[|rows| - 1]|
    requires active == if |rows| == 1 then [] else rows[|rows| - 2]
    ensures Ready(tracks, active, rows[|rows| - 1])
    ensures forall e: nat :: e < |active| && active[e] !in rows[|rows| - 1] ==>
              FitsAsLinkable(tracks, active, rows, frames, threshold, e)
  {
    hide Iou, TrackOk;
    forall e: nat | e < |active| && active[e] !in rows[|rows| - 1]
      ensures var o := tracks[active[e]].observations;
              o != [] && o[|o| - 1] == Observation(|rows| - 2, e, frames[|rows| - 2][e].box)
              && tracks[active[e]].tokens == frames[|rows| - 2][e].tokens
    {
      LastObservation(tracks, rows, frames, e);
    }
  }

  ghost predicate FitsAsLinkable(tracks: seq<Track>, active: seq<nat>, rows: seq<seq<nat>>, frames: Frames,
                                 threshold: nat, e: nat)
    requires AllBoxesValid(frames) && rows != [] && |rows| <= |frames|
    requires |rows[|rows| - 1]| < |frames[|rows| - 1]|
    requires Ready(tracks, active, rows[|rows| - 1])
    requires e < |active| && active[e] !in rows[|rows| - 1]
  {
    var f := |rows| - 1;
    var d := |rows[f]|;
    && f > 0 && e < |frames[f - 1]|
    && (Fits(tracks, active, rows[f], frames[f][d], threshold, e) <==> Linkable(frames, threshold, f, e, d))
    && Iou(LastBox(tracks[active[e]]), frames[f][d].box) == Overlap(frames, f, e, d)
  }

  lemma LinkedByContinuing(rows: seq<seq<nat>>, frames: Frames, threshold: nat, e: nat)
    requires AllBoxesValid(frames) && 1 < |rows| <= |frames| && e < |rows[|rows| - 2]|
    requires var f := |rows| - 1; var d := |rows[f]|;
             && d < |frames[f]| && Linkable(frames, threshold, f, e, d)
             && forall e': nat :: e' < |rows[f - 1]| && rows[f - 1][e'] !in rows[f] && Linkable(frames, threshold, f, e', d)
                  ==> Behind(frames, f, e', e, d)
    ensures var f := |rows| - 1;
            Linked(Extended(rows, rows[f - 1][e]), frames, threshold, f, |rows[f]|)
  {
    var f := |rows| - 1;
    var d := |rows[f]|;
    var longer := Extended(rows, rows[f - 1][e]);
    assert longer[f - 1] == rows[f - 1] && longer[f][..d] == rows[f];
    assert Continues(longer, frames, threshold, f, e, d);
  }

  lemma OpensNext(tracks: seq<Track>, rows: seq<seq<nat>>, frames: Frames)
    requires rows != [] && Partition(tracks, rows, frames)
    ensures NextNumber(Extended(rows, |tracks|), |rows| - 1, |rows[|rows| - 1]|)
  {
    var f := |rows| - 1;
    var d := |rows[f]|;
    var longer := Extended(rows, |tracks|);
    forall g: nat, k: nat | Earlier(longer, g, k, f, d) ensures longer[g][k] < |tracks| {
      assert longer[g][k] == rows[g][k];
    }
    if tracks != [] {
      var t := |tracks| - 1;
      assert TrackOk(tracks[t], t, rows, frames);
      var o := tracks[t].observations[0];
      assert Earlier(longer, o.frame, o.index, f, d) && longer[o.frame][o.index] == t;
    }
  }

  lemma LinkedByOpening(tracks: seq<Track>, rows: seq<seq<nat>>, frames: Frames, threshold: nat)
    requires AllBoxesValid(frames) && rows != [] && Partition(tracks, rows, frames)
    requires var f := |rows| - 1; var d := |rows[f]|;
             && d < |frames[f]|
             && (f > 0 ==> forall e: nat :: e < |rows[f - 1]| && Linkable(frames, threshold, f, e, d) ==>
                             rows[f - 1][e] in rows[f])
    ensures var f := |rows| - 1;
            Linked(Extended(rows, |tracks|), frames, threshold, f, |rows[f]|)
  {
    hide TrackOk;
    var f := |rows| - 1;
    var d := |rows[f]|;
    var longer := Extended(rows, |tracks|);
    assert longer[f][..d] == rows[f];
    OpensNext(tracks, rows, frames);
    hide NextNumber;
    assert f > 0 ==> longer[f - 1] == rows[f - 1];
    assert forall g, k :: 0 <= g < |rows| && 0 <= k < |rows[g]| ==> rows[g][k] < |tracks|;
  }

  /** One detection: it continues the chosen track or opens a new one. */
  method LinkDetection(tracks: seq<Track>, active: seq<nat>, next: seq<nat>, frames: Frames, threshold: nat,
                       f: nat, d: nat, ghost rows: seq<seq<nat>>)
    returns (tracks': seq<Track>, index: nat)
    requires AllBoxesValid(frames) && f < |frames| && d < |frames[f]|
    requires |rows| == f + 1 && rows[f] == next && |next| == d
    requires active == if f == 0 then [] else rows[f - 1]
    requires Partition(tracks, rows, frames) && AllLinked(rows, frames, threshold)
    ensures Partition(tracks', Extended(rows, index), frames)
    ensures AllLinked(Extended(rows, index), frames, threshold)
  {
    hide Iou, Partition, AllLinked, Linked;
    ReadyAndFits(tracks, active, rows, frames, threshold);
    var detection := frames[f][d];
    var found, position := ChooseTrack(tracks, active, next, detection, threshold);
    var o := Observation(f, d, detection.box);
    if found {
      index := active[position];
      LastObservation(tracks, rows, frames, position);
      Continued(tracks, rows, frames, index);
      tracks' := tracks[index := Track(tracks[index].tokens, tracks[index].observations + [o])];
      LinkedByContinuing(rows, frames, threshold, position);
    } else {
      index := |tracks|;
      Opened(tracks, rows, frames);
      tracks' := tracks + [Track(detection.tokens, [o])];
      LinkedByOpening(tracks, rows, frames, threshold);
    }
    LinkedStays(rows, index, frames, threshold);
  }

  method LinkTracks(frames: Frames, threshold: nat) returns (tracks: seq<Track>, rows: seq<seq<nat>>)
    requires AllBoxesValid(frames)
    ensures |rows| == |frames| && forall f :: 0 <= f < |frames| ==> |rows[f]| == |frames[f]|
    ensures Partition(tracks, rows, frames)
    ensures AllLinked(rows, frames, threshold)
  {
    hide Partition, AllLinked;
    tracks, rows := [], [];
    NothingLinked(frames, threshold);
    var active: seq<nat> := [];
    for f := 0 to |frames|
      invariant |rows| == f && forall g :: 0 <= g < f ==> |rows[g]| == |frames[g]|
      invariant active == if f == 0 then [] else rows[f - 1]
      invariant Partition(tracks, rows, frames) && AllLinked(rows, frames, threshold)
    {
      var next: seq<nat> := [];
      NextFrame(tracks, rows, frames, threshold);
      ghost var before := rows;
      rows := rows + [[]];
      for d := 0 to |frames[f]|
        invariant |next| == d && rows == before + [next]
        invariant Partition(tracks, rows, frames) && AllLinked(rows, frames, threshold)
      {
        var index;
        tracks, index := LinkDetection(tracks, active, next, frames, threshold, f, d, rows);
        next := next + [index];
        rows := Extended(rows, index);
      }
      active := next;
    }
  }

  lemma NothingLinked(frames: Frames, threshold: nat)
    requires AllBoxesValid(frames)
    ensures Partition([], [], frames) && AllLinked([], frames, threshold)
  {
  }

  lemma NextFrame(tracks: seq<Track>, rows: seq<seq<nat>>, frames: Frames, threshold: nat)
    requires AllBoxesValid(frames) && |rows| < |frames|
    requires Partition(tracks, rows, frames) && AllLinked(rows, frames, threshold)
    ensures Partition(tracks, rows + [[]], frames) && AllLinked(rows + [[]], frames, threshold)
  {
    var longer := rows + [[]];
    forall t | 0 <= t < |tracks| ensures TrackOk(tracks[t], t, longer, frames) {
      assert TrackOk(tracks[t], t, rows, frames);
    }
    forall f, d | 0 <= f < |longer| && 0 <= d < |longer[f]| ensures Linked(longer, frames, threshold, f, d) {
      assert Linked(rows, frames, threshold, f, d);
      assert forall g :: 0 <= g <= f ==> longer[g] == rows[g];
      if f > 0 && rows[f][d] in rows[f - 1] {
        var e :| Continues(rows, frames, threshold, f, e, d);
        assert Continues(longer, frames, threshold, f, e, d);
      }
    }
  }

  // ----- What this means for the tracks -----

  /** Entry k of track t and entry l of track u name the same detection. */
  ghost predicate SamePlace(tracks: seq<Track>, t: nat, k: nat, u: nat, l: nat) {
    && t < |tracks| && u < |tracks| && k < |tracks[t].observations| && l < |tracks[u].observations|
    && tracks[t].observations[k].frame == tracks[u].observations[l].frame
    && tracks[t].observations[k].index == tracks[u].observations[l].index
  }

  /** Detections of consecutive frames with equal tokens and enough overlap. */
  ghost predicate LinkedPair(a: Observation, b: Observation, frames: Frames, threshold: nat)
    requires AllBoxesValid(frames)
  {
    && b.frame == a.frame + 1 && b.frame < |frames|
    && a.index < |frames[a.frame]| && b.index < |frames[b.frame]|
    && Linkable(frames, threshold, b.frame, a.index, b.index)
  }

  /** Every detection sits at exactly one place of exactly one track; neighbours in a track lie in
      consecutive frames, have equal tokens and overlap at or above the threshold. */
  lemma EachDetectionOnce(tracks: seq<Track>, rows: seq<seq<nat>>, frames: Frames, threshold: nat)
    requires AllBoxesValid(frames) && Partition(tracks, rows, frames) && AllLinked(rows, frames, threshold)
    requires |rows| == |frames| && forall f :: 0 <= f < |frames| ==> |rows[f]| == |frames[f]|
    ensures forall f, d :: 0 <= f < |frames| && 0 <= d < |frames[f]| ==>
              rows[f][d] < |tracks| && Observation(f, d, frames[f][d].box) in tracks[rows[f][d]].observations
    ensures forall t: nat, k: nat, u: nat, l: nat :: SamePlace(tracks, t, k, u, l) ==> t == u && k == l
    ensures forall t: nat, k: nat :: t < |tracks| && 0 < k < |tracks[t].observations| ==>
              LinkedPair(tracks[t].observations[k - 1], tracks[t].observations[k], frames, threshold)
  {
    forall t: nat, k: nat, u: nat, l: nat | SamePlace(tracks, t, k, u, l) ensures t == u && k == l {
      assert TrackOk(tracks[t], t, rows, frames) && TrackOk(tracks[u], u, rows, frames);
    }
    forall t: nat, k: nat | t < |tracks| && 0 < k < |tracks[t].observations|
      ensures LinkedPair(tracks[t].observations[k - 1], tracks[t].observations[k], frames, threshold)
    {
      NeighboursLinked(tracks, rows, frames, threshold, t, k);
    }
  }

  lemma NeighboursLinked(tracks: seq<Track>, rows: seq<seq<nat>>, frames: Frames, threshold: nat, t: nat, k: nat)
    requires AllBoxesValid(frames) && Partition(tracks, rows, frames) && AllLinked(rows, frames, threshold)
    requires t < |tracks| && 0 < k < |tracks[t].observations|
    ensures LinkedPair(tracks[t].observations[k - 1], tracks[t].observations[k], frames, threshold)
  {
    hide Linkable;
    assert TrackOk(tracks[t], t, rows, frames);
    var a, b := tracks[t].observations[k - 1], tracks[t].observations[k];
    assert rows[a.frame][a.index] == t && rows[b.frame][b.index] == t;
    assert Linked(rows, frames, threshold, b.frame, b.index);
    assert t in rows[a.frame];
    var e: nat :| Continues(rows, frames, threshold, b.frame, e, b.index);
    assert rows[a.frame][e] == t;
    assert e == a.index;
  }

  // ----- There is only one such linking -----

  /** Both name the same tracks before detection d of frame f. */
  ghost predicate SameBefore(rows: seq<seq<nat>>, other: seq<seq<nat>>, f: nat, d: nat) {
    forall g: nat, k: nat :: Earlier(rows, g, k, f, d) || Earlier(other, g, k, f, d) ==>
      g < |rows| && g < |other| && k < |rows[g]| && k < |other[g]| && rows[g][k] == other[g][k]
  }

  ghost predicate Complete(rows: seq<seq<nat>>, frames: Frames) {
    |rows| == |frames| && forall f :: 0 <= f < |frames| ==> |rows[f]| == |frames[f]|
  }

  ghost predicate OnceAFrame(rows: seq<seq<nat>>) {
    forall f, d, e :: 0 <= f < |rows| && 0 <= d < e < |rows[f]| ==> rows[f][d] != rows[f][e]
  }

  /** Two new numbers after the same past are the same. */
  lemma SameNextNumber(rows: seq<seq<nat>>, other: seq<seq<nat>>, f: nat, d: nat)
    requires f < |rows| && f < |other| && d < |rows[f]| && d < |other[f]|
    requires SameBefore(rows, other, f, d) && NextNumber(rows, f, d) && NextNumber(other, f, d)
    ensures rows[f][d] <= other[f][d]
  {
    if rows[f][d] > 0 {
      var g: nat, k: nat :| Earlier(rows, g, k, f, d) && rows[g][k] == rows[f][d] - 1;
      assert Earlier(other, g, k, f, d);
    }
  }

  /** A detection that continues a track in one linking continues the same one in the other. */
  lemma SameContinuation(rows: seq<seq<nat>>, other: seq<seq<nat>>, frames: Frames, threshold: nat, f: nat, d: nat)
    requires AllBoxesValid(frames) && Complete(rows, frames) && Complete(other, frames) && OnceAFrame(rows) && OnceAFrame(other)
    requires 0 < f < |frames| && d < |frames[f]| && rows[f - 1] == other[f - 1] && rows[f][..d] == other[f][..d]
    requires Linked(rows, frames, threshold, f, d) && Linked(other, frames, threshold, f, d)
    requires rows[f][d] in rows[f - 1]
    ensures rows[f][d] == other[f][d]
  {
    hide NextNumber, Iou;
    var e: nat :| Continues(rows, frames, threshold, f, e, d);
    assert rows[f - 1][e] !in rows[f][..d];
    assert other[f][d] in other[f - 1];
    var c: nat :| Continues(other, frames, threshold, f, c, d);
    assert other[f - 1][c] !in other[f][..d];
    assert Behind(frames, f, c, e, d) && Behind(frames, f, e, c, d);
  }

  lemma {:induction false} SameUpTo(rows: seq<seq<nat>>, other: seq<seq<nat>>, frames: Frames, threshold: nat, f: nat, d: nat)
    requires AllBoxesValid(frames) && Complete(rows, frames) && Complete(other, frames) && OnceAFrame(rows) && OnceAFrame(other)
    requires AllLinked(rows, frames, threshold) && AllLinked(other, frames, threshold)
    requires f < |frames| && d <= |frames[f]|
    ensures SameBefore(rows, other, f, d)
    decreases f, d
  {
    hide Linked, OnceAFrame, NextNumber;
    if d > 0 {
      SameUpTo(rows, other, frames, threshold, f, d - 1);
      SameEntry(rows, other, frames, threshold, f, d - 1);
    } else if f > 0 {
      SameUpTo(rows, other, frames, threshold, f - 1, |frames[f - 1]|);
    }
  }

  lemma SameEntry(rows: seq<seq<nat>>, other: seq<seq<nat>>, frames: Frames, threshold: nat, f: nat, d: nat)
    requires AllBoxesValid(frames) && Complete(rows, frames) && Complete(other, frames) && OnceAFrame(rows) && OnceAFrame(other)
    requires AllLinked(rows, frames, threshold) && AllLinked(other, frames, threshold)
    requires f < |frames| && d < |frames[f]| && SameBefore(rows, other, f, d)
    ensures rows[f][d] == other[f][d]
  {
    assert Linked(rows, frames, threshold, f, d) && Linked(other, frames, threshold, f, d);
    hide OnceAFrame, NextNumber, Continues;
    SameRows(rows, other, f, d);
    if f > 0 && rows[f][d] in rows[f - 1] {
      SameContinuation(rows, other, frames, threshold, f, d);
    } else if f > 0 && other[f][d] in other[f - 1] {
      SameContinuation(other, rows, frames, threshold, f, d);
    } else {
      SameNextNumber(rows, other, f, d);
      SameNextNumber(other, rows, f, d);
    }
  }

  lemma SameRows(rows: seq<seq<nat>>, other: seq<seq<nat>>, f: nat, d: nat)
    requires f < |rows| && f < |other| && d < |rows[f]| && d < |other[f]| && SameBefore(rows, other, f, d)
    ensures rows[f][..d] == other[f][..d] && (f > 0 && |rows[f - 1]| == |other[f - 1]| ==> rows[f - 1] == other[f - 1])
    ensures SameBefore(other, rows, f, d)
  {
    forall k: nat | k < d ensures rows[f][k] == other[f][k] { assert Earlier(rows, f, k, f, d); }
    if f > 0 && |rows[f - 1]| == |other[f - 1]| {
      var past, same, g := rows[f - 1], other[f - 1], f - 1;
      forall k: nat | k < |past| ensures past[k] == same[k] { assert Earlier(rows, g, k, f, d); }
    }
  }

  /** The rules leave no choice: the tracks of all detections are determined, numbers included. */
  lemma LinkingIsUnique(tracks: seq<Track>, rows: seq<seq<nat>>, others: seq<Track>, other: seq<seq<nat>>,
                        frames: Frames, threshold: nat)
    requires AllBoxesValid(frames) && Complete(rows, frames) && Complete(other, frames)
    requires Partition(tracks, rows, frames) && AllLinked(rows, frames, threshold)
    requires Partition(others, other, frames) && AllLinked(other, frames, threshold)
    ensures rows == other && tracks == others
  {
    hide AllLinked;
    if frames != [] {
      hide Partition;
      PartitionOnceAFrame(tracks, rows, frames);
      PartitionOnceAFrame(others, other, frames);
      var last := |frames| - 1;
      SameUpTo(rows, other, frames, threshold, last, |frames[last]|);
      forall f: nat | f < |frames| ensures rows[f] == other[f] {
        forall k: nat | k < |rows[f]| ensures rows[f][k] == other[f][k] {
          assert Earlier(rows, f, k, last, |frames[last]|);
        }
      }
    }
    assert rows == other;
    FewerTracks(tracks, others, rows, frames);
    FewerTracks(others, tracks, rows, frames);
    forall t | 0 <= t < |tracks| ensures tracks[t] == others[t] {
      SameTrack(tracks, others, rows, frames, t);
    }
  }

  lemma PartitionOnceAFrame(tracks: seq<Track>, rows: seq<seq<nat>>, frames: Frames)
    requires Partition(tracks, rows, frames)
    ensures OnceAFrame(rows)
  {
    hide TrackOk;
  }

  lemma FewerTracks(tracks: seq<Track>, others: seq<Track>, rows: seq<seq<nat>>, frames: Frames)
    requires Partition(tracks, rows, frames) && Partition(others, rows, frames)
    ensures |tracks| <= |others|
  {
    if tracks != [] {
      var t := |tracks| - 1;
      assert TrackOk(tracks[t], t, rows, frames);
      var o := tracks[t].observations[0];
      assert rows[o.frame][o.index] == t;
    }
  }

  /** Every detection of a track stands in the other's track of the same number. */
  lemma FoundInBoth(tracks: seq<Track>, others: seq<Track>, rows: seq<seq<nat>>, frames: Frames, t: nat, k: nat)
    requires Partition(tracks, rows, frames) && Partition(others, rows, frames) && t < |tracks| && t < |others|
    requires k < |tracks[t].observations|
    ensures tracks[t].observations[k] in others[t].observations
  {
    assert TrackOk(tracks[t], t, rows, frames);
    var o := tracks[t].observations[k];
    assert Observation(o.frame, o.index, frames[o.frame][o.index].box) == o;
  }

  lemma NotAfter(tracks: seq<Track>, others: seq<Track>, rows: seq<seq<nat>>, frames: Frames, t: nat)
    requires Partition(tracks, rows, frames) && Partition(others, rows, frames) && t < |tracks| && t < |others|
    ensures tracks[t].observations != [] && others[t].observations != []
    ensures var a, b := tracks[t].observations, others[t].observations;
            b[0].frame <= a[0].frame && a[0].frame + |a| <= b[0].frame + |b|
  {
    assert TrackOk(tracks[t], t, rows, frames) && TrackOk(others[t], t, rows, frames);
    hide Partition, TrackOk;
    var a, b := tracks[t].observations, others[t].observations;
    FoundAt(tracks, others, rows, frames, t, 0);
    FoundAt(tracks, others, rows, frames, t, |a| - 1);
  }

  lemma FoundAt(tracks: seq<Track>, others: seq<Track>, rows: seq<seq<nat>>, frames: Frames, t: nat, k: nat)
    requires Partition(tracks, rows, frames) && Partition(others, rows, frames) && t < |tracks| && t < |others|
    requires k < |tracks[t].observations|
    ensures others[t].observations != []
    ensures var a, b := tracks[t].observations, others[t].observations;
            b[0].frame <= a[0].frame + k < b[0].frame + |b|
  {
    assert TrackOk(tracks[t], t, rows, frames) && TrackOk(others[t], t, rows, frames);
    FoundInBoth(tracks, others, rows, frames, t, k);
    var b := others[t].observations;
    var i :| 0 <= i < |b| && b[i] == tracks[t].observations[k];
  }

  lemma SameTrack(tracks: seq<Track>, others: seq<Track>, rows: seq<seq<nat>>, frames: Frames, t: nat)
    requires Partition(tracks, rows, frames) && Partition(others, rows, frames) && t < |tracks| && t < |others|
    ensures tracks[t] == others[t]
  {
    NotAfter(tracks, others, rows, frames, t);
    NotAfter(others, tracks, rows, frames, t);
    assert TrackOk(tracks[t], t, rows, frames) && TrackOk(others[t], t, rows, frames);
    var a, b := tracks[t].observations, others[t].observations;
    forall k: nat | k < |a| ensures a[k] == b[k] {
      assert rows[a[k].frame][a[k].index] == t && rows[b[k].frame][b[k].index] == t;
      assert a[k].frame == b[k].frame;
      assert a[k].index == b[k].index;
    }
    assert a[0] == b[0];
  }
}
