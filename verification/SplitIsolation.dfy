/** The corpus check: nothing that dev and test clips could share may leak between the splits, and
    every annotated occurrence is accounted for by the adjudication of its clip.
    Schemas, rights, durations and files on disk are not modelled. */
module SplitIsolation {
  import opened Wrappers

  datatype Split = Dev | Test

  datatype Media = Media(path: string, sha256: string)

  datatype Clip = Clip(id: string, split: Split, creators: seq<string>, topics: seq<string>, repostGroup: string,
                       media: Option<Media>)

  /** Something clips can have in common. */
  datatype Key = Creator(id: string) | Topic(id: string) | Repost(id: string) | Digest(sha256: string)

  datatype DatasetError = Leak(key: Key) | RepeatedPath(path: string) | EmptySplit(split: Split)

  // ----- What must not leak -----

  ghost predicate Has(c: Clip, key: Key) {
    match key
    case Creator(id) => id in c.creators
    case Topic(id) => id in c.topics
    case Repost(id) => id == c.repostGroup
    case Digest(sha256) => c.media.Some? && sha256 == c.media.value.sha256
  }

  ghost predicate Share(a: Clip, b: Clip) {
    exists key :: Has(a, key) && Has(b, key)
  }

  /** A chain of clips of the corpus in which each shares something with the next. */
  ghost predicate IsChain(clips: seq<Clip>, chain: seq<Clip>) {
    && chain != [] && (forall k :: 0 <= k < |chain| ==> chain[k] in clips)
    && forall k :: 0 < k < |chain| ==> Share(chain[k - 1], chain[k])
  }

  /** Two clips of one connected component of the sharing graph. */
  ghost predicate Connected(clips: seq<Clip>, a: Clip, b: Clip) {
    exists chain :: IsChain(clips, chain) && chain[0] == a && chain[|chain| - 1] == b
  }

  /** No component holds clips of both splits. */
  ghost predicate Isolated(clips: seq<Clip>) {
    forall a, b :: Connected(clips, a, b) ==> a.split == b.split
  }

  /** What the loop checks: each key belongs to one split. */
  ghost predicate OneSplitPerKey(clips: seq<Clip>) {
    forall a, b, key :: a in clips && b in clips && Has(a, key) && Has(b, key) ==> a.split == b.split
  }

  lemma {:induction false} ChainKeepsSplit(clips: seq<Clip>, chain: seq<Clip>)
    requires OneSplitPerKey(clips) && IsChain(clips, chain)
    ensures chain[0].split == chain[|chain| - 1].split
    decreases |chain|
  {
    if |chain| > 1 {
      var init := chain[..|chain| - 1];
      assert IsChain(clips, init);
      ChainKeepsSplit(clips, init);
      assert Share(chain[|chain| - 2], chain[|chain| - 1]);
      var key :| Has(chain[|chain| - 2], key) && Has(chain[|chain| - 1], key);
    }
  }

  /** Checking one key at a time is enough for chains of any length. */
  lemma IsolatedIffOneSplitPerKey(clips: seq<Clip>)
    ensures Isolated(clips) <==> OneSplitPerKey(clips)
  {
    if OneSplitPerKey(clips) {
      forall a, b | Connected(clips, a, b) ensures a.split == b.split {
        var chain :| IsChain(clips, chain) && chain[0] == a && chain[|chain| - 1] == b;
        ChainKeepsSplit(clips, chain);
      }
    }
    if Isolated(clips) {
      forall a, b, key | a in clips && b in clips && Has(a, key) && Has(b, key) ensures a.split == b.split {
        assert Share(a, b);
        assert IsChain(clips, [a, b]) && [a, b][0] == a && [a, b][1] == b;
        assert Connected(clips, a, b);
      }
    }
  }

  // ----- The check -----

  /** The keys of a clip in the order they are looked at. */
  function KeysOf(c: Clip): (keys: seq<Key>)
    ensures forall key :: key in keys <==> Has(c, key)
  {
    var creators := seq(|c.creators|, i requires 0 <= i < |c.creators| => Creator(c.creators[i]));
    var topics := seq(|c.topics|, i requires 0 <= i < |c.topics| => Topic(c.topics[i]));
    var keys := creators + topics + [Repost(c.repostGroup)] + (if c.media.Some? then [Digest(c.media.value.sha256)] else []);
    assert forall id :: Creator(id) in creators <==> id in c.creators by {
      forall id | id in c.creators ensures Creator(id) in creators {
        var i :| 0 <= i < |c.creators| && c.creators[i] == id;
        assert creators[i] == Creator(id);
      }
    }
    assert forall id :: Topic(id) in topics <==> id in c.topics by {
      forall id | id in c.topics ensures Topic(id) in topics {
        var i :| 0 <= i < |c.topics| && c.topics[i] == id;
        assert topics[i] == Topic(id);
      }
    }
    assert forall key :: key in keys <==>
      key in creators || key in topics || key == Repost(c.repostGroup) || (c.media.Some? && key == Digest(c.media.value.sha256));
    keys
  }

  /** The groups record, for the clips seen so far, each key with the split it belongs to. */
  ghost predicate Grouped(groups: map<Key, Split>, clips: seq<Clip>) {
    && (forall c, key :: c in clips && Has(c, key) ==> key in groups && groups[key] == c.split)
    && (forall key :: key in groups ==> exists c :: c in clips && Has(c, key))
  }

  lemma GroupedIsIsolated(groups: map<Key, Split>, clips: seq<Clip>)
    requires Grouped(groups, clips)
    ensures OneSplitPerKey(clips)
  {
  }

  /** The first part of the keys of the next clip is entered as well. */
  ghost predicate PartlyGrouped(groups: map<Key, Split>, before: seq<Clip>, clip: Clip, keys: seq<Key>) {
    && (forall c, key :: c in before && Has(c, key) ==> key in groups && groups[key] == c.split)
    && (forall key :: key in keys ==> key in groups && groups[key] == clip.split)
    && (forall key :: key in groups ==> key in keys || exists c :: c in before && Has(c, key))
  }

  ghost predicate UniquePaths(clips: seq<Clip>) {
    forall i, j :: 0 <= i < j < |clips| && clips[i].media.Some? && clips[j].media.Some? ==>
      clips[i].media.value.path != clips[j].media.value.path
  }

  /** Enters the keys of one clip; fails exactly at a key that an earlier clip has in the other split. */
  method EnterClip(groups: map<Key, Split>, before: seq<Clip>, clip: Clip) returns (r: Result<map<Key, Split>, DatasetError>)
    requires Grouped(groups, before)
    ensures r.Success? ==> Grouped(r.value, before + [clip])
    ensures r.Failure? ==> !OneSplitPerKey(before + [clip])
  {
    hide Has, OneSplitPerKey, PartlyGrouped, Grouped;
    var keys := KeysOf(clip);
    var entered := groups;
    StartOfClip(groups, before, clip);
    for k := 0 to |keys|
      invariant PartlyGrouped(entered, before, clip, keys[..k])
    {
      var key := keys[k];
      assert keys[..k + 1] == keys[..k] + [key];
      KeyStep(entered, before, clip, keys[..k], key);
      if key in entered && entered[key] != clip.split {
        return Failure(Leak(key));
      }
      entered := entered[key := clip.split];
    }
    assert keys[..|keys|] == keys;
    EndOfClip(entered, before, clip, keys);
    return Success(entered);
  }

  lemma StartOfClip(groups: map<Key, Split>, before: seq<Clip>, clip: Clip)
    requires Grouped(groups, before)
    ensures PartlyGrouped(groups, before, clip, [])
  {
    hide Has;
  }

  /** One more key either joins the groups or shows a leak. */
  lemma KeyStep(entered: map<Key, Split>, before: seq<Clip>, clip: Clip, keys: seq<Key>, key: Key)
    requires PartlyGrouped(entered, before, clip, keys) && Has(clip, key)
    ensures if key in entered && entered[key] != clip.split then !OneSplitPerKey(before + [clip])
            else PartlyGrouped(entered[key := clip.split], before, clip, keys + [key])
  {
    hide Has, OneSplitPerKey;
    if key in entered && entered[key] != clip.split {
      assert key !in keys;
      var c :| c in before && Has(c, key);
      LeakFound(before, clip, c, key);
    }
  }

  lemma EndOfClip(entered: map<Key, Split>, before: seq<Clip>, clip: Clip, keys: seq<Key>)
    requires PartlyGrouped(entered, before, clip, keys) && forall key :: key in keys <==> Has(clip, key)
    ensures Grouped(entered, before + [clip])
  {
    hide Has;
    assert forall c :: c in before + [clip] <==> c in before || c == clip;
  }

  lemma NothingGrouped()
    ensures Grouped(map[], [])
  {
  }

  lemma LeakFound(before: seq<Clip>, clip: Clip, c: Clip, key: Key)
    requires c in before && Has(c, key) && Has(clip, key) && c.split != clip.split
    ensures !OneSplitPerKey(before + [clip])
  {
    assert c in before + [clip] && clip in before + [clip];
  }

  /** A corpus is accepted exactly when no component mixes the splits, both splits have clips and no two
      clips name the same file. */
  method CheckSplits(clips: seq<Clip>) returns (error: Option<DatasetError>)
    ensures error.None? <==>
            && Isolated(clips) && UniquePaths(clips)
            && (exists c :: c in clips && c.split == Dev) && (exists c :: c in clips && c.split == Test)
  {
    hide Has, Isolated, OneSplitPerKey, Grouped;
    IsolatedIffOneSplitPerKey(clips);
    if !exists c :: c in clips && c.split == Dev {
      return Some(EmptySplit(Dev));
    }
    if !exists c :: c in clips && c.split == Test {
      return Some(EmptySplit(Test));
    }
    var groups: map<Key, Split> := map[];
    var paths: set<string> := {};
    NothingGrouped();
    for k := 0 to |clips|
      invariant Grouped(groups, clips[..k])
      invariant UniquePaths(clips[..k])
      invariant forall path :: path in paths <==> exists i :: 0 <= i < k && clips[i].media.Some? && clips[i].media.value.path == path
    {
      var clip := clips[k];
      assert clips[..k + 1] == clips[..k] + [clip];
      if clip.media.Some? && clip.media.value.path in paths {
        return Some(RepeatedPath(clip.media.value.path));
      }
      var entered := EnterClip(groups, clips[..k], clip);
      if entered.Failure? {
        LeakStays(clips, k + 1);
        return Some(entered.error);
      }
      groups := entered.value;
      if clip.media.Some? {
        paths := paths + {clip.media.value.path};
      }
    }
    assert clips[..|clips|] == clips;
    GroupedIsIsolated(groups, clips);
    return None;
  }

  lemma LeakStays(clips: seq<Clip>, k: nat)
    requires k <= |clips| && !OneSplitPerKey(clips[..k])
    ensures !OneSplitPerKey(clips)
  {
    hide Has;
    assert forall c :: c in clips[..k] ==> c in clips;
  }

  // ----- Adjudication -----

  /** An occurrence of an annotation pass. */
  datatype Reference = Reference(annotationId: string, occurrenceId: string)

  datatype Decision = Decision(goldId: string, propositionId: string, proposition: string, references: seq<Reference>)

  datatype AdjudicationError = RepeatedGold | TwoTexts | UnknownReference | Unaccounted

  predicate UniqueGold(decisions: seq<Decision>) {
    forall i, j :: 0 <= i < j < |decisions| ==> decisions[i].goldId != decisions[j].goldId
  }

  predicate OneTextEach(decisions: seq<Decision>) {
    forall i, j :: 0 <= i < |decisions| && 0 <= j < |decisions| && decisions[i].propositionId == decisions[j].propositionId
      ==> decisions[i].proposition == decisions[j].proposition
  }

  predicate Referred(decisions: seq<Decision>, r: Reference) {
    exists i :: 0 <= i < |decisions| && r in decisions[i].references
  }

  /** Decisions are complete when they name each annotated occurrence and nothing else. */
  ghost predicate Complete(decisions: seq<Decision>, expected: set<Reference>) {
    forall r :: Referred(decisions, r) <==> r in expected
  }

  lemma ReferredStep(decisions: seq<Decision>, k: nat, r: Reference)
    requires k < |decisions|
    ensures Referred(decisions[..k + 1], r) <==> Referred(decisions[..k], r) || r in decisions[k].references
  {
    var before, after := decisions[..k], decisions[..k + 1];
    if Referred(before, r) {
      var i :| 0 <= i < |before| && r in before[i].references;
      assert after[i] == before[i];
    }
    if r in decisions[k].references { assert after[k] == decisions[k]; }
  }

  /** Adds the references of one decision, unless one of them is unknown. */
  method EnterReferences(used: set<Reference>, references: seq<Reference>, expected: set<Reference>)
    returns (entered: Option<set<Reference>>)
    requires used <= expected
    ensures entered.None? <==> exists r :: r in references && r !in expected
    ensures entered.Some? ==> entered.value <= expected && forall r :: r in entered.value <==> r in used || r in references
  {
    var all := used;
    for j := 0 to |references|
      invariant forall r :: r in all <==> r in used || r in references[..j]
      invariant all <= expected
    {
      assert references[..j + 1] == references[..j] + [references[j]];
      if references[j] !in expected {
        return None;
      }
      all := all + {references[j]};
    }
    assert references[..|references|] == references;
    return Some(all);
  }

  /** The records kept while reading the decisions. */
  ghost predicate Recorded(decisions: seq<Decision>, gold: set<string>, texts: map<string, string>) {
    && UniqueGold(decisions) && (forall id :: id in gold <==> exists i :: 0 <= i < |decisions| && decisions[i].goldId == id)
    && (forall d :: d in decisions ==> d.propositionId in texts && texts[d.propositionId] == d.proposition)
    && (forall id :: id in texts ==> exists d :: d in decisions && d.propositionId == id)
  }

  lemma NothingRecorded(decisions: seq<Decision>)
    ensures Recorded(decisions[..0], {}, map[]) && forall r :: !Referred(decisions[..0], r)
  {
  }

  lemma ReferencesReferred(decisions: seq<Decision>, k: nat)
    requires k < |decisions|
    ensures forall r :: r in decisions[k].references ==> Referred(decisions, r)
  {
  }

  lemma RecordedIsFine(decisions: seq<Decision>, gold: set<string>, texts: map<string, string>)
    requires Recorded(decisions, gold, texts)
    ensures UniqueGold(decisions) && OneTextEach(decisions)
  {
    forall i, j | 0 <= i < |decisions| && 0 <= j < |decisions| && decisions[i].propositionId == decisions[j].propositionId
      ensures decisions[i].proposition == decisions[j].proposition
    {
      assert decisions[i] in decisions && decisions[j] in decisions;
    }
  }

  lemma RepeatedGoldStays(decisions: seq<Decision>, k: nat, gold: set<string>, texts: map<string, string>)
    requires k < |decisions| && Recorded(decisions[..k], gold, texts) && decisions[k].goldId in gold
    ensures !UniqueGold(decisions)
  {
    var i :| 0 <= i < |decisions[..k]| && decisions[..k][i].goldId == decisions[k].goldId;
    assert decisions[i].goldId == decisions[k].goldId;
  }

  lemma TwoTextsStay(decisions: seq<Decision>, k: nat, gold: set<string>, texts: map<string, string>)
    requires k < |decisions| && Recorded(decisions[..k], gold, texts)
    requires decisions[k].propositionId in texts && texts[decisions[k].propositionId] != decisions[k].proposition
    ensures !OneTextEach(decisions)
  {
    hide UniqueGold;
    var e :| e in decisions[..k] && e.propositionId == decisions[k].propositionId;
    var i :| 0 <= i < k && decisions[..k][i] == e;
    assert decisions[i].propositionId == decisions[k].propositionId && decisions[i].proposition != decisions[k].proposition;
  }

  lemma RecordedGrows(before: seq<Decision>, d: Decision, gold: set<string>, texts: map<string, string>)
    requires Recorded(before, gold, texts) && d.goldId !in gold
    requires d.propositionId in texts ==> texts[d.propositionId] == d.proposition
    ensures Recorded(before + [d], gold + {d.goldId}, texts[d.propositionId := d.proposition])
  {
    hide UniqueGold;
    GoldGrows(before, d, gold);
    TextsGrow(before, d, texts);
  }

  lemma RecordedStep(decisions: seq<Decision>, k: nat, gold: set<string>, texts: map<string, string>)
    requires k < |decisions| && Recorded(decisions[..k], gold, texts)
    ensures decisions[k].goldId in gold ==> !UniqueGold(decisions)
    ensures decisions[k].propositionId in texts && texts[decisions[k].propositionId] != decisions[k].proposition
            ==> !OneTextEach(decisions)
    ensures decisions[k].goldId !in gold
            && (decisions[k].propositionId in texts ==> texts[decisions[k].propositionId] == decisions[k].proposition)
            ==> Recorded(decisions[..k + 1], gold + {decisions[k].goldId}, texts[decisions[k].propositionId := decisions[k].proposition])
  {
    hide Recorded, UniqueGold, OneTextEach;
    var d := decisions[k];
    assert decisions[..k + 1] == decisions[..k] + [d];
    if d.goldId in gold { RepeatedGoldStays(decisions, k, gold, texts); }
    if d.propositionId in texts && texts[d.propositionId] != d.proposition {
      TwoTextsStay(decisions, k, gold, texts);
    } else if d.goldId !in gold {
      RecordedGrows(decisions[..k], d, gold, texts);
    }
  }

  lemma TextsGrow(before: seq<Decision>, d: Decision, texts: map<string, string>)
    requires d.propositionId in texts ==> texts[d.propositionId] == d.proposition
    requires forall e :: e in before ==> e.propositionId in texts && texts[e.propositionId] == e.proposition
    requires forall id :: id in texts ==> exists e :: e in before && e.propositionId == id
    ensures var more := texts[d.propositionId := d.proposition];
            && (forall e :: e in before + [d] ==> e.propositionId in more && more[e.propositionId] == e.proposition)
            && forall id :: id in more ==> exists e :: e in before + [d] && e.propositionId == id
  {
    assert forall e :: e in before + [d] <==> e in before || e == d;
  }

  lemma GoldGrows(before: seq<Decision>, d: Decision, gold: set<string>)
    requires UniqueGold(before) && d.goldId !in gold
    requires forall id :: id in gold <==> exists i :: 0 <= i < |before| && before[i].goldId == id
    ensures UniqueGold(before + [d])
    ensures forall id :: id in gold + {d.goldId} <==> exists i :: 0 <= i < |before + [d]| && (before + [d])[i].goldId == id
  {
    var after := before + [d];
    forall id | id in gold + {d.goldId} ensures exists i :: 0 <= i < |after| && after[i].goldId == id {
      if id in gold {
        var i :| 0 <= i < |before| && before[i].goldId == id;
        assert after[i].goldId == id;
      } else {
        assert after[|before|].goldId == id;
      }
    }
  }

  method CheckDecisions(decisions: seq<Decision>, expected: set<Reference>) returns (error: Option<AdjudicationError>)
    ensures error.None? <==> UniqueGold(decisions) && OneTextEach(decisions) && Complete(decisions, expected)
  {
    hide Referred, Recorded, UniqueGold, OneTextEach;
    var used: set<Reference>, gold: set<string>, texts: map<string, string> := {}, {}, map[];
    NothingRecorded(decisions);
    for k := 0 to |decisions|
      invariant forall r :: r in used <==> Referred(decisions[..k], r)
      invariant used <= expected && Recorded(decisions[..k], gold, texts)
    {
      var d := decisions[k];
      forall r ensures Referred(decisions[..k + 1], r) <==> Referred(decisions[..k], r) || r in d.references { ReferredStep(decisions, k, r); }
      ReferencesReferred(decisions, k);
      RecordedStep(decisions, k, gold, texts);
      if d.goldId in gold {
        return Some(RepeatedGold);
      }
      gold := gold + {d.goldId};
      if d.propositionId in texts && texts[d.propositionId] != d.proposition {
        return Some(TwoTexts);
      }
      texts := texts[d.propositionId := d.proposition];
      var entered := EnterReferences(used, d.references, expected);
      if entered.None? {
        return Some(UnknownReference);
      }
      used := entered.value;
    }
    assert decisions[..|decisions|] == decisions;
    RecordedIsFine(decisions, gold, texts);
    return if used == expected then None else Some(Unaccounted);
  }
}
