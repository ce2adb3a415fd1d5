/** Candidate selection for one claim: hits are collapsed to one paper per work, ranked by Okapi BM25
    over the candidates alone, and the best of those that share a term with the claim are read.
    Searching, tokenising and reading full texts are not modelled: papers carry their tokens, and the
    logarithm is any function that is positive above one. */
module Retrieval {
  import opened Bm25

  datatype QueryKind = Neutral | Disconfirming

  datatype Paper = Paper(origin: string, version: nat, hasSummary: bool, tokens: seq<string>)

  datatype Hit = Hit(kind: QueryKind, paper: Paper)

  datatype Candidate = Candidate(paper: Paper, kinds: seq<QueryKind>)

  // ----- Collapsing hits of one work -----

  /** A later version replaces a paper, and so does a paper with a summary when it has none. */
  predicate Replaces(next: Paper, current: Paper) {
    next.version > current.version || (!current.hasSummary && next.hasSummary)
  }

  /** The paper that stands for these hits, in the order they were found. */
  function Keep(papers: seq<Paper>): Paper
    requires papers != []
  {
    var last := papers[|papers| - 1];
    if |papers| == 1 then last
    else
      var kept := Keep(papers[..|papers| - 1]);
      if Replaces(last, kept) then last else kept
  }

  function HighestVersion(papers: seq<Paper>): nat
    requires papers != []
  {
    var last := papers[|papers| - 1];
    if |papers| == 1 then last.version
    else
      var highest := HighestVersion(papers[..|papers| - 1]);
      if last.version > highest then last.version else highest
  }

  lemma {:induction false} HighestIsMaximum(papers: seq<Paper>)
    requires papers != []
    ensures forall i :: 0 <= i < |papers| ==> papers[i].version <= HighestVersion(papers)
    ensures exists i :: 0 <= i < |papers| && papers[i].version == HighestVersion(papers)
  {
    if |papers| > 1 {
      var init := papers[..|papers| - 1];
      HighestIsMaximum(init);
      var i :| 0 <= i < |init| && init[i].version == HighestVersion(init);
      assert papers[i] == init[i];
      assert forall j :: 0 <= j < |init| ==> papers[j] == init[j];
    }
  }

  /** Some paper of this version carries a summary. */
  predicate Summarised(papers: seq<Paper>, version: nat) {
    exists i :: 0 <= i < |papers| && papers[i].version == version && papers[i].hasSummary
  }

  /** A paper with a summary was found after the last paper of this version. */
  predicate SummaryAfterLast(papers: seq<Paper>, version: nat) {
    exists i :: 0 <= i < |papers| && papers[i].hasSummary && forall j :: i <= j < |papers| ==> papers[j].version != version
  }

  lemma SummarisedStep(init: seq<Paper>, last: Paper, version: nat)
    ensures Summarised(init + [last], version) <==> Summarised(init, version) || (last.version == version && last.hasSummary)
    ensures SummaryAfterLast(init + [last], version) <==>
            last.version != version && (last.hasSummary || SummaryAfterLast(init, version))
  {
    var papers := init + [last];
    if Summarised(init, version) {
      var i :| 0 <= i < |init| && init[i].version == version && init[i].hasSummary;
      assert papers[i] == init[i];
    }
    assert papers[|init|] == last;
    if last.version != version && SummaryAfterLast(init, version) {
      var i :| 0 <= i < |init| && init[i].hasSummary && forall j :: i <= j < |init| ==> init[j].version != version;
      assert papers[i].hasSummary && forall j :: i <= j < |papers| ==> papers[j].version != version;
    }
    if SummaryAfterLast(papers, version) && !last.hasSummary {
      var i :| 0 <= i < |papers| && papers[i].hasSummary && forall j :: i <= j < |papers| ==> papers[j].version != version;
      assert init[i].hasSummary && forall j :: i <= j < |init| ==> init[j].version == papers[j].version;
    }
  }

  lemma {:induction false} KeptCases(papers: seq<Paper>)
    requires papers != []
    ensures var highest := HighestVersion(papers); var kept := Keep(papers);
            if Summarised(papers, highest) then kept.version == highest && kept.hasSummary
            else if SummaryAfterLast(papers, highest) then kept.version < highest
            else kept.version == highest && !kept.hasSummary
  {
    var init, last := papers[..|papers| - 1], papers[|papers| - 1];
    assert papers == init + [last];
    SummarisedStep(init, last, HighestVersion(papers));
    if init != [] {
      KeptCases(init);
      HighestIsMaximum(init);
      hide Summarised, SummaryAfterLast, Keep, HighestVersion;
      KeepStep(init, last);
      if last.version > HighestVersion(init) {
        NoneThatHigh(init, last.version);
      }
    }
  }

  lemma KeepStep(init: seq<Paper>, last: Paper)
    requires init != []
    ensures Keep(init + [last]) == if Replaces(last, Keep(init)) then last else Keep(init)
    ensures HighestVersion(init + [last]) == if last.version > HighestVersion(init) then last.version else HighestVersion(init)
  {
    assert (init + [last])[..|init|] == init;
  }

  lemma NoneThatHigh(papers: seq<Paper>, version: nat)
    requires papers != [] && version > HighestVersion(papers)
    ensures !Summarised(papers, version)
  {
    HighestIsMaximum(papers);
  }

  /** The kept paper has the highest version found exactly when some paper of that version carries a
      summary or none found after the last of them does. */
  lemma HighestKeptIff(papers: seq<Paper>)
    requires papers != []
    ensures Keep(papers).version == HighestVersion(papers) <==>
            Summarised(papers, HighestVersion(papers)) || !SummaryAfterLast(papers, HighestVersion(papers))
  {
    KeptCases(papers);
  }

  /** When every hit carries a summary, the highest version is kept. */
  lemma AllSummarisedKeepsHighest(papers: seq<Paper>)
    requires papers != [] && forall i :: 0 <= i < |papers| ==> papers[i].hasSummary
    ensures Keep(papers).version == HighestVersion(papers)
  {
    HighestIsMaximum(papers);
    HighestKeptIff(papers);
  }

  /** A later hit of an older version replaces the newest when only it has a summary. */
  lemma OlderSummaryWins(origin: string, tokens: seq<string>)
    ensures var papers := [Paper(origin, 3, false, tokens), Paper(origin, 1, true, tokens)];
            Keep(papers).version == 1 < HighestVersion(papers)
  {
    var papers := [Paper(origin, 3, false, tokens), Paper(origin, 1, true, tokens)];
    assert papers[..1] == [papers[0]];
  }

  // ----- The candidates -----

  function Papers(found: seq<Hit>, origin: string): (papers: seq<Paper>)
  {
    if found == [] then []
    else
      var init, last := Papers(found[..|found| - 1], origin), found[|found| - 1].paper;
      if last.origin == origin then init + [last] else init
  }

  function Kinds(found: seq<Hit>, origin: string): (kinds: seq<QueryKind>)
  {
    if found == [] then []
    else
      var init, last := Kinds(found[..|found| - 1], origin), found[|found| - 1];
      if last.paper.origin == origin && last.kind !in init then init + [last.kind] else init
  }

  /** The works found, in the order of their first hit. */
  function Origins(found: seq<Hit>): (origins: seq<string>)
    ensures forall o :: o in origins <==> exists h :: h in found && h.paper.origin == o
    ensures forall i, j :: 0 <= i < j < |origins| ==> origins[i] != origins[j]
  {
    if found == [] then []
    else
      var init, last := Origins(found[..|found| - 1]), found[|found| - 1].paper.origin;
      assert found == found[..|found| - 1] + [found[|found| - 1]];
      if last in init then init else init + [last]
  }

  lemma {:induction false} PapersOfFound(found: seq<Hit>, origin: string)
    ensures Papers(found, origin) != [] <==> origin in Origins(found)
    ensures forall p :: p in Papers(found, origin) ==> p.origin == origin && exists h :: h in found && h.paper == p
    ensures forall h :: h in found && h.paper.origin == origin ==> h.paper in Papers(found, origin)
    ensures forall k :: k in Kinds(found, origin) <==> exists h :: h in found && h.paper.origin == origin && h.kind == k
  {
    if found != [] {
      PapersOfFound(found[..|found| - 1], origin);
      assert found == found[..|found| - 1] + [found[|found| - 1]];
    }
  }

  /** The first hit of this work. */
  ghost predicate FirstHit(found: seq<Hit>, origin: string, a: nat) {
    a < |found| && found[a].paper.origin == origin && forall b :: 0 <= b < a ==> found[b].paper.origin != origin
  }

  /** The first hit of this work by a query of this kind. */
  ghost predicate FirstOfKind(found: seq<Hit>, origin: string, kind: QueryKind, a: nat) {
    && a < |found| && found[a].paper.origin == origin && found[a].kind == kind
    && forall b :: 0 <= b < a ==> found[b].paper.origin != origin || found[b].kind != kind
  }

  ghost predicate FoundBefore(found: seq<Hit>, first: string, second: string) {
    exists a: nat, b: nat :: a < b && FirstHit(found, first, a) && FirstHit(found, second, b)
  }

  /** Works stand in the order of their first hits. */
  lemma {:induction false} OriginsInOrder(found: seq<Hit>)
    ensures forall o :: o in Origins(found) ==> exists a: nat :: FirstHit(found, o, a)
    ensures forall i, j :: 0 <= i < j < |Origins(found)| ==> FoundBefore(found, Origins(found)[i], Origins(found)[j])
  {
    if found != [] {
      var n := |found| - 1;
      var init, last := found[..n], found[n];
      assert found == init + [last];
      OriginsInOrder(init);
      OriginsStep(init, last);
      var o := last.paper.origin;
      var before := Origins(init);
      forall x, a: nat | FirstHit(init, x, a) ensures FirstHit(found, x, a) {}
      if o !in before {
        assert forall h :: h in init ==> h.paper.origin != o;
        assert forall b :: 0 <= b < n ==> init[b] in init;
        assert FirstHit(found, o, n);
      }
      hide Origins, FirstHit;
      forall i, j | 0 <= i < j < |Origins(found)| ensures FoundBefore(found, Origins(found)[i], Origins(found)[j]) {
        if j < |before| {
          assert FoundBefore(init, before[i], before[j]);
        } else {
          assert before[i] in before;
          HitInside(init, before[i]);
        }
      }
    }
  }

  lemma HitInside(found: seq<Hit>, o: string)
    ensures forall a: nat :: FirstHit(found, o, a) ==> a < |found|
  {
  }

  ghost predicate KindBefore(found: seq<Hit>, origin: string, first: QueryKind, second: QueryKind) {
    exists a: nat, b: nat :: a < b && FirstOfKind(found, origin, first, a) && FirstOfKind(found, origin, second, b)
  }

  /** The kinds of query of a work stand in the order in which they first found it. */
  lemma {:induction false} KindsInOrder(found: seq<Hit>, origin: string)
    ensures forall k :: k in Kinds(found, origin) ==> exists a: nat :: FirstOfKind(found, origin, k, a)
    ensures forall i, j :: 0 <= i < j < |Kinds(found, origin)| ==>
              KindBefore(found, origin, Kinds(found, origin)[i], Kinds(found, origin)[j])
  {
    if found != [] {
      var n := |found| - 1;
      var init, last := found[..n], found[n];
      assert found == init + [last];
      KindsInOrder(init, origin);
      PapersOfFound(init, origin);
      var before := Kinds(init, origin);
      forall x, a: nat | FirstOfKind(init, origin, x, a) ensures FirstOfKind(found, origin, x, a) {}
      if last.paper.origin == origin && last.kind !in before {
        assert forall b :: 0 <= b < n ==> init[b] in init;
        assert FirstOfKind(found, origin, last.kind, n);
      }
      assert Kinds(found, origin) == if last.paper.origin == origin && last.kind !in before then before + [last.kind] else before;
      hide Kinds, FirstOfKind;
      forall i, j | 0 <= i < j < |Kinds(found, origin)|
        ensures KindBefore(found, origin, Kinds(found, origin)[i], Kinds(found, origin)[j])
      {
        if j < |before| {
          assert KindBefore(init, origin, before[i], before[j]);
        } else {
          assert before[i] in before;
          KindInside(init, origin, before[i]);
        }
      }
    }
  }

  lemma KindInside(found: seq<Hit>, origin: string, kind: QueryKind)
    ensures forall a: nat :: FirstOfKind(found, origin, kind, a) ==> a < |found|
  {
  }

  /** The papers of a work stand as they were found. */
  lemma {:induction false} PapersJoin(found: seq<Hit>, more: seq<Hit>, origin: string)
    ensures Papers(found + more, origin) == Papers(found, origin) + Papers(more, origin)
  {
    if more == [] {
      assert found + more == found;
    } else {
      assert (found + more)[..|found + more| - 1] == found + more[..|more| - 1];
      PapersJoin(found, more[..|more| - 1], origin);
    }
  }

  /** What the tables hold of one work. */
  ghost predicate Entry(found: seq<Hit>, origin: string, paper: Paper, kinds: seq<QueryKind>) {
    Papers(found, origin) != [] && paper == Keep(Papers(found, origin)) && kinds == Kinds(found, origin)
  }

  /** The tables after these hits: for each work its paper and the kinds of query that found it. */
  ghost predicate Tabled(found: seq<Hit>, order: seq<string>, papers: map<string, Paper>, kinds: map<string, seq<QueryKind>>) {
    && order == Origins(found) && (forall o :: o in papers <==> o in order) && (forall o :: o in kinds <==> o in order)
    && forall o :: o in papers && o in kinds ==> Entry(found, o, papers[o], kinds[o])
  }

  lemma OtherEntry(found: seq<Hit>, hit: Hit, origin: string, paper: Paper, kinds: seq<QueryKind>)
    requires Entry(found, origin, paper, kinds) && hit.paper.origin != origin
    ensures Entry(found + [hit], origin, paper, kinds)
  {
    assert (found + [hit])[..|found|] == found;
  }

  function AddKind(kinds: seq<QueryKind>, kind: QueryKind): seq<QueryKind> {
    if kind in kinds then kinds else kinds + [kind]
  }

  lemma FirstEntry(found: seq<Hit>, hit: Hit)
    requires hit.paper.origin !in Origins(found)
    ensures Entry(found + [hit], hit.paper.origin, hit.paper, [hit.kind])
  {
    hide Origins;
    assert (found + [hit])[..|found|] == found;
    PapersOfFound(found, hit.paper.origin);
    NoKinds(found, hit.paper.origin);
    assert Papers(found + [hit], hit.paper.origin) == [hit.paper];
  }

  lemma NextEntry(found: seq<Hit>, hit: Hit, paper: Paper, kinds: seq<QueryKind>)
    requires Entry(found, hit.paper.origin, paper, kinds)
    ensures Entry(found + [hit], hit.paper.origin, if Replaces(hit.paper, paper) then hit.paper else paper, AddKind(kinds, hit.kind))
  {
    var papers := Papers(found, hit.paper.origin);
    assert (found + [hit])[..|found|] == found;
    KeepStep(papers, hit.paper);
    hide Keep, HighestVersion, Replaces;
    assert Papers(found + [hit], hit.paper.origin) == papers + [hit.paper];
  }

  /** Enters one hit into the tables. */
  method EnterHit(hit: Hit, order: seq<string>, papers: map<string, Paper>, kinds: map<string, seq<QueryKind>>,
                  ghost found: seq<Hit>)
    returns (newOrder: seq<string>, newPapers: map<string, Paper>, newKinds: map<string, seq<QueryKind>>)
    requires Tabled(found, order, papers, kinds)
    ensures Tabled(found + [hit], newOrder, newPapers, newKinds)
  {
    hide Entry, Origins, Replaces, Tabled;
    var origin := hit.paper.origin;
    newOrder, newPapers, newKinds := order, papers, kinds;
    SameTables(found, order, papers, kinds, origin);
    if origin !in papers {
      newOrder := order + [origin];
      newPapers := papers[origin := hit.paper];
      newKinds := kinds[origin := []];
    } else {
      if Replaces(hit.paper, papers[origin]) {
        newPapers := papers[origin := hit.paper];
      }
    }
    if hit.kind !in newKinds[origin] {
      newKinds := newKinds[origin := newKinds[origin] + [hit.kind]];
    }
    assert newKinds[origin] == AddKind(if origin in kinds then kinds[origin] else [], hit.kind);
    assert newKinds == kinds[origin := newKinds[origin]] && newPapers == papers[origin := newPapers[origin]];
    TabledStep(found, hit, order, papers, kinds);
  }

  /** The paper and the kinds that a hit leaves in the tables for its work. */
  function NextPaper(papers: map<string, Paper>, hit: Hit): Paper {
    var o := hit.paper.origin;
    if o !in papers || Replaces(hit.paper, papers[o]) then hit.paper else papers[o]
  }

  function NextKinds(kinds: map<string, seq<QueryKind>>, hit: Hit): seq<QueryKind> {
    var o := hit.paper.origin;
    AddKind(if o in kinds then kinds[o] else [], hit.kind)
  }

  lemma TabledStep(found: seq<Hit>, hit: Hit, order: seq<string>, papers: map<string, Paper>, kinds: map<string, seq<QueryKind>>)
    requires Tabled(found, order, papers, kinds)
    ensures var o := hit.paper.origin;
            Tabled(found + [hit], if o in papers then order else order + [o],
                   papers[o := NextPaper(papers, hit)], kinds[o := NextKinds(kinds, hit)])
  {
    hide Entry, Origins, Replaces;
    var origin := hit.paper.origin;
    OriginsStep(found, hit);
    forall o | o in papers && o in kinds && o != origin ensures Entry(found + [hit], o, papers[o], kinds[o]) {
      OtherEntry(found, hit, o, papers[o], kinds[o]);
    }
    if origin in papers {
      NextEntry(found, hit, papers[origin], kinds[origin]);
    } else {
      FirstEntry(found, hit);
      assert NextKinds(kinds, hit) == [hit.kind];
    }
  }

  lemma SameTables(found: seq<Hit>, order: seq<string>, papers: map<string, Paper>, kinds: map<string, seq<QueryKind>>,
                   origin: string)
    requires Tabled(found, order, papers, kinds)
    ensures origin in papers <==> origin in kinds
  {
  }

  lemma OriginsStep(found: seq<Hit>, hit: Hit)
    ensures var o := hit.paper.origin;
            Origins(found + [hit]) == if o in Origins(found) then Origins(found) else Origins(found) + [o]
  {
    assert (found + [hit])[..|found|] == found;
  }

  lemma FirstIsMember(kinds: seq<QueryKind>)
    requires kinds != []
    ensures kinds[0] in kinds
  {
  }

  lemma NoKinds(found: seq<Hit>, origin: string)
    requires origin !in Origins(found)
    ensures Kinds(found, origin) == []
  {
    PapersOfFound(found, origin);
    var kinds := Kinds(found, origin);
    if kinds != [] { FirstIsMember(kinds); }
  }

  /** One candidate per work, in the order the works were first found. */
  ghost predicate Collapsed(found: seq<Hit>, candidates: seq<Candidate>) {
    && |candidates| == |Origins(found)|
    && forall i :: 0 <= i < |candidates| ==> CandidateOf(found, Origins(found)[i], candidates[i])
  }

  ghost predicate CandidateOf(found: seq<Hit>, origin: string, c: Candidate) {
    && Papers(found, origin) != [] && c.paper == Keep(Papers(found, origin)) && c.kinds == Kinds(found, origin)
    && c.paper.origin == origin
  }

  method Dedupe(found: seq<Hit>) returns (candidates: seq<Candidate>)
    ensures Collapsed(found, candidates)
  {
    hide Tabled, Collapsed;
    var order: seq<string>, papers: map<string, Paper>, kinds: map<string, seq<QueryKind>> := [], map[], map[];
    NothingTabled();
    for k := 0 to |found|
      invariant Tabled(found[..k], order, papers, kinds)
    {
      order, papers, kinds := EnterHit(found[k], order, papers, kinds, found[..k]);
      assert found[..k + 1] == found[..k] + [found[k]];
    }
    assert found[..|found|] == found;
    candidates := [];
    InTables(found, order, papers, kinds);
    for i := 0 to |order|
      invariant |candidates| == i
      invariant forall j :: 0 <= j < i ==> candidates[j] == Candidate(papers[order[j]], kinds[order[j]])
    {
      candidates := candidates + [Candidate(papers[order[i]], kinds[order[i]])];
    }
    CollapsedFrom(found, order, papers, kinds, candidates);
  }

  lemma NothingTabled()
    ensures Tabled([], [], map[], map[])
  {
  }

  lemma InTables(found: seq<Hit>, order: seq<string>, papers: map<string, Paper>, kinds: map<string, seq<QueryKind>>)
    requires Tabled(found, order, papers, kinds)
    ensures forall i :: 0 <= i < |order| ==> order[i] in papers && order[i] in kinds
  {
  }

  lemma CollapsedFrom(found: seq<Hit>, order: seq<string>, papers: map<string, Paper>, kinds: map<string, seq<QueryKind>>,
                      candidates: seq<Candidate>)
    requires Tabled(found, order, papers, kinds) && |candidates| == |order|
    requires forall i :: 0 <= i < |order| ==> order[i] in papers && order[i] in kinds
    requires forall i :: 0 <= i < |candidates| ==> candidates[i] == Candidate(papers[order[i]], kinds[order[i]])
    ensures Collapsed(found, candidates)
  {
    hide Entry, Origins, CandidateOf;
    forall i | 0 <= i < |candidates| ensures CandidateOf(found, Origins(found)[i], candidates[i]) {
      assert Entry(found, order[i], papers[order[i]], kinds[order[i]]);
      EntryMeans(found, order[i], papers[order[i]], kinds[order[i]]);
    }
  }

  lemma {:induction false} KeptIsFound(papers: seq<Paper>)
    requires papers != []
    ensures Keep(papers) in papers
  {
    if |papers| > 1 {
      KeptIsFound(papers[..|papers| - 1]);
    }
  }

  lemma EntryMeans(found: seq<Hit>, origin: string, paper: Paper, kinds: seq<QueryKind>)
    requires Entry(found, origin, paper, kinds)
    ensures CandidateOf(found, origin, Candidate(paper, kinds))
  {
    hide Keep;
    KeptIsFound(Papers(found, origin));
    PapersOfFound(found, origin);
  }

  // ----- The passages chosen -----

  /** The first `limit` of the ranking that score above zero. */
  function Positive(ranked: seq<Ranked>): seq<Ranked> {
    if ranked == [] then []
    else (if ranked[0].score > 0.0 then [ranked[0]] else []) + Positive(ranked[1..])
  }

  /** In an ordered list the entries above zero are a prefix. */
  lemma {:induction false} PositiveIsPrefix(ranked: seq<Ranked>)
    requires Ordered(ranked)
    ensures Positive(ranked) <= ranked
    ensures forall i :: |Positive(ranked)| <= i < |ranked| ==> ranked[i].score <= 0.0
    ensures forall i :: 0 <= i < |Positive(ranked)| ==> ranked[i].score > 0.0
  {
    if ranked != [] {
      var rest := ranked[1..];
      assert forall i :: 0 <= i < |rest| ==> rest[i] == ranked[i + 1];
      PositiveIsPrefix(rest);
      if ranked[0].score <= 0.0 {
        forall i | 0 <= i < |rest| ensures rest[i].score <= 0.0 { assert Better(ranked[0], ranked[i + 1]); }
        assert Positive(rest) == [];
      }
    }
  }

  /** The chosen are the best `limit` of the documents that share a term with the claim: in order, each
      sharing one, and every other that shares one ranks below them all and was left out for the limit. */
  ghost predicate Best(chosen: seq<Ranked>, log: real -> real, terms: seq<string>, documents: seq<seq<string>>, limit: nat) {
    && Ordered(chosen) && |chosen| <= limit
    && (forall c :: c in chosen ==> c.index < |documents| && c.score == Score(log, terms, documents, c.index)
                                    && SharesTerm(terms, documents[c.index]))
    && (forall d :: 0 <= d < |documents| && SharesTerm(terms, documents[d]) ==>
          var r := Ranked(d, Score(log, terms, documents, d));
          r in chosen || (|chosen| == limit && forall c :: c in chosen ==>
                            c.score > r.score || (c.score == r.score && c.index < r.index)))
  }

  method Choose(log: real -> real, terms: seq<string>, documents: seq<seq<string>>, limit: nat) returns (chosen: seq<Ranked>)
    requires PositiveAboveOne(log)
    ensures Best(chosen, log, terms, documents, limit)
  {
    var scores := Scores(log, terms, documents);
    var ranked := Rank(scores);
    RankRanks(scores);
    PositiveIsPrefix(ranked);
    var positive := Positive(ranked);
    chosen := if |positive| <= limit then positive else positive[..limit];
    ChosenAreBest(log, terms, documents, limit, scores, ranked, chosen);
  }

  lemma ChosenAreBest(log: real -> real, terms: seq<string>, documents: seq<seq<string>>, limit: nat,
                      scores: seq<real>, ranked: seq<Ranked>, chosen: seq<Ranked>)
    requires PositiveAboveOne(log) && Ranks(ranked, scores) && |scores| == |documents|
    requires forall d :: 0 <= d < |scores| ==> scores[d] == Score(log, terms, documents, d)
    requires chosen <= ranked && |chosen| <= limit && forall i :: 0 <= i < |chosen| ==> ranked[i].score > 0.0
    requires forall i :: |chosen| <= i < |ranked| ==> ranked[i].score <= 0.0 || |chosen| == limit
    ensures Best(chosen, log, terms, documents, limit)
  {
    hide Score, SharesTerm;
    forall d | 0 <= d < |documents| ensures scores[d] > 0.0 <==> SharesTerm(terms, documents[d]) {
      PositiveIffShared(log, terms, documents, d);
    }
    forall c | c in chosen
      ensures c.index < |documents| && c.score == Score(log, terms, documents, c.index) && SharesTerm(terms, documents[c.index])
    {
      var i :| 0 <= i < |chosen| && chosen[i] == c;
      assert ranked[i] in ranked;
    }
    forall d | 0 <= d < |documents| && SharesTerm(terms, documents[d])
      ensures var r := Ranked(d, Score(log, terms, documents, d));
              r in chosen || (|chosen| == limit && forall c :: c in chosen ==>
                                c.score > r.score || (c.score == r.score && c.index < r.index))
    {
      var r := Ranked(d, scores[d]);
      assert r in ranked;
      var i :| 0 <= i < |ranked| && ranked[i] == r;
      if i < |chosen| {
        assert chosen[i] == r;
      }
    }
  }

  // ----- Retrieval -----

  function Documents(candidates: seq<Candidate>): (documents: seq<seq<string>>)
    ensures |documents| == |candidates| && forall i :: 0 <= i < |documents| ==> documents[i] == candidates[i].paper.tokens
  {
    seq(|candidates|, i requires 0 <= i < |candidates| => candidates[i].paper.tokens)
  }

  lemma CollapsedOrigins(found: seq<Hit>, candidates: seq<Candidate>)
    requires Collapsed(found, candidates)
    ensures forall i, j :: 0 <= i < j < |candidates| ==> candidates[i].paper.origin != candidates[j].paper.origin
  {
    hide Origins, Papers, Kinds, Keep;
    forall i, j | 0 <= i < j < |candidates| ensures candidates[i].paper.origin != candidates[j].paper.origin {
      assert CandidateOf(found, Origins(found)[i], candidates[i]) && CandidateOf(found, Origins(found)[j], candidates[j]);
    }
  }

  /** From the hits of all queries to the passages read, best first. */
  method Select(log: real -> real, terms: seq<string>, found: seq<Hit>, maxCandidates: nat, maxPassages: nat)
    returns (candidates: seq<Candidate>, chosen: seq<Ranked>)
    requires PositiveAboveOne(log)
    ensures exists all :: Collapsed(found, all) && candidates == if |all| <= maxCandidates then all else all[..maxCandidates]
    ensures forall i, j :: 0 <= i < j < |candidates| ==> candidates[i].paper.origin != candidates[j].paper.origin
    ensures Best(chosen, log, terms, Documents(candidates), maxPassages)
  {
    hide Best, PositiveAboveOne, CandidateOf;
    var all := Dedupe(found);
    candidates := if |all| <= maxCandidates then all else all[..maxCandidates];
    CollapsedOrigins(found, all);
    chosen := Choose(log, terms, Documents(candidates), maxPassages);
  }
}
