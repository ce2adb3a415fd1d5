/** Word alignment of the benchmark scorer: a two-row edit-distance table that records one
    operation per cell in a flat trace and then walks the trace back into an edit script. */
module Alignment {
  import opened Wrappers
  import opened Numbers

  /** A normalised word, compared only for equality. */
  datatype Token = Token(text: string)

  const MAX_TOKENS := 5000

  /** One step of a script. `i` indexes the reference and `j` the hypothesis; an insertion also
      carries the number of reference tokens consumed before it. */
  datatype Edit =
    | Equal(i: nat, j: nat)
    | Substitution(i: nat, j: nat)
    | Deletion(i: nat)
    | Insertion(i: nat, j: nat)

  // ----- What a script is -----

  function RefStep(e: Edit): seq<nat> {
    if e.Insertion? then [] else [e.i]
  }

  function HypStep(e: Edit): seq<nat> {
    if e.Deletion? then [] else [e.j]
  }

  /** Reference positions in the order a script consumes them. */
  function RefIndices(s: seq<Edit>): seq<nat> {
    if s == [] then [] else RefIndices(s[..|s| - 1]) + RefStep(s[|s| - 1])
  }

  /** Hypothesis positions in the order a script consumes them. */
  function HypIndices(s: seq<Edit>): seq<nat> {
    if s == [] then [] else HypIndices(s[..|s| - 1]) + HypStep(s[|s| - 1])
  }

  function Range(n: nat): (r: seq<nat>)
    ensures |r| == n && forall k :: 0 <= k < n ==> r[k] == k
  {
    if n == 0 then [] else Range(n - 1) + [n - 1]
  }

  /** An edit names positions that exist and says "equal" exactly for equal tokens. */
  ghost predicate Labelled(e: Edit, r: seq<Token>, h: seq<Token>) {
    match e
    case Equal(i, j) => i < |r| && j < |h| && r[i] == h[j]
    case Substitution(i, j) => i < |r| && j < |h| && r[i] != h[j]
    case Deletion(i) => i < |r|
    case Insertion(i, j) => i <= |r| && j < |h|
  }

  /** A script aligns r[..i] with h[..j]: every reference and every hypothesis position is
      consumed exactly once and in increasing order, every label is right, and an insertion
      stands behind exactly the reference tokens already consumed. */
  ghost predicate IsScript(s: seq<Edit>, r: seq<Token>, h: seq<Token>, i: nat, j: nat) {
    && RefIndices(s) == Range(i)
    && HypIndices(s) == Range(j)
    && AllLabelled(s, r, h)
    && AllPlaced(s)
  }

  ghost predicate AllLabelled(s: seq<Edit>, r: seq<Token>, h: seq<Token>) {
    forall k :: 0 <= k < |s| ==> Labelled(s[k], r, h)
  }

  ghost predicate AllPlaced(s: seq<Edit>) {
    forall k :: 0 <= k < |s| && s[k].Insertion? ==> s[k].i == |RefIndices(s[..k])|
  }

  /** The number of edits that are not "equal". */
  function Cost(s: seq<Edit>): nat {
    if s == [] then 0
    else Cost(s[..|s| - 1]) + (if s[|s| - 1].Equal? then 0 else 1)
  }

  /** The hypothesis a script spells out, copying only kept tokens from the reference. */
  function Replay(s: seq<Edit>, r: seq<Token>, h: seq<Token>): seq<Token>
    requires AllLabelled(s, r, h)
  {
    if s == [] then []
    else
      var e := s[|s| - 1];
      assert Labelled(s[|s| - 1], r, h) && AllLabelled(s[..|s| - 1], r, h);
      Replay(s[..|s| - 1], r, h)
      + (match e
         case Equal(i, j) => [r[i]]
         case Substitution(i, j) => [h[j]]
         case Deletion(i) => []
         case Insertion(i, j) => [h[j]])
  }

  // ----- The table -----

  function Mismatch(r: seq<Token>, h: seq<Token>, i: nat, j: nat): nat
    requires 0 < i <= |r| && 0 < j <= |h|
  {
    if r[i - 1] == h[j - 1] then 0 else 1
  }

  /** The first least of the three costs, in the order diagonal, up, left. */
  function FirstLeast(diagonal: nat, up: nat, left: nat): byte {
    if diagonal <= up && diagonal <= left then 0 else if up <= left then 1 else 2
  }

  /** The cell (i, j) of the distance table. */
  function Dist(r: seq<Token>, h: seq<Token>, i: nat, j: nat): nat
    requires i <= |r| && j <= |h|
    decreases i + j
  {
    if i == 0 then j
    else if j == 0 then i
    else
      var diagonal := Dist(r, h, i - 1, j - 1) + Mismatch(r, h, i, j);
      var up := Dist(r, h, i - 1, j) + 1;
      var left := Dist(r, h, i, j - 1) + 1;
      match FirstLeast(diagonal, up, left) case 0 => diagonal case 1 => up case _ => left
  }

  /** The operation recorded in cell (i, j); the origin keeps the zero it was created with. */
  function OpAt(r: seq<Token>, h: seq<Token>, i: nat, j: nat): byte
    requires i <= |r| && j <= |h|
  {
    if i == 0 then if j == 0 then 0 else 2
    else if j == 0 then 1
    else
      var diagonal := Dist(r, h, i - 1, j - 1) + Mismatch(r, h, i, j);
      var up := Dist(r, h, i - 1, j) + 1;
      var left := Dist(r, h, i, j - 1) + 1;
      FirstLeast(diagonal, up, left)
  }

  function EditAt(r: seq<Token>, h: seq<Token>, i: nat, j: nat): Edit
    requires i <= |r| && j <= |h| && i + j > 0
  {
    match OpAt(r, h, i, j)
    case 0 => if r[i - 1] == h[j - 1] then Equal(i - 1, j - 1) else Substitution(i - 1, j - 1)
    case 1 => Deletion(i - 1)
    case _ => Insertion(i, j - 1)
  }

  /** The script read off the table from cell (i, j) back to the origin. */
  function Script(r: seq<Token>, h: seq<Token>, i: nat, j: nat): seq<Edit>
    requires i <= |r| && j <= |h|
    decreases i + j
  {
    if i + j == 0 then []
    else
      var op := OpAt(r, h, i, j);
      Script(r, h, if op == 2 then i else i - 1, if op == 1 then j else j - 1)
      + [EditAt(r, h, i, j)]
  }

  // ----- The table, one cell at a time -----

  lemma TopRow(r: seq<Token>, h: seq<Token>)
    ensures forall j :: 0 <= j <= |h| ==> OpAt(r, h, 0, j) == (if j == 0 then 0 else 2) && Dist(r, h, 0, j) == j
  {
  }

  /** A cell is at most one edit away from each of its neighbours. */
  lemma Neighbours(r: seq<Token>, h: seq<Token>, i: nat, j: nat)
    requires i <= |r| && j <= |h|
    ensures i > 0 ==> Dist(r, h, i, j) <= Dist(r, h, i - 1, j) + 1
    ensures j > 0 ==> Dist(r, h, i, j) <= Dist(r, h, i, j - 1) + 1
    ensures i > 0 && j > 0 ==> Dist(r, h, i, j) <= Dist(r, h, i - 1, j - 1) + Mismatch(r, h, i, j)
    ensures i == 0 ==> Dist(r, h, i, j) == j
    ensures j == 0 ==> Dist(r, h, i, j) == i
  {
  }

  /** The cost of a cell, by the operation recorded there. */
  lemma OpCost(r: seq<Token>, h: seq<Token>, i: nat, j: nat)
    requires i <= |r| && j <= |h| && i + j > 0
    ensures var op := OpAt(r, h, i, j);
            if op == 0 then i > 0 && j > 0 && Dist(r, h, i, j) == Dist(r, h, i - 1, j - 1) + Mismatch(r, h, i, j)
            else if op == 1 then i > 0 && Dist(r, h, i, j) == Dist(r, h, i - 1, j) + 1
            else j > 0 && Dist(r, h, i, j) == Dist(r, h, i, j - 1) + 1
  {
    hide Dist;
    Neighbours(r, h, i, j);
    if i > 0 && j > 0 {
      InnerCell(r, h, i, j);
    } else if i > 0 {
      Neighbours(r, h, i - 1, j);
    } else {
      Neighbours(r, h, i, j - 1);
    }
  }

  /** The last edit of the script at a cell, by the operation recorded there. */
  lemma LastStep(r: seq<Token>, h: seq<Token>, i: nat, j: nat)
    requires i <= |r| && j <= |h| && i + j > 0
    ensures var op := OpAt(r, h, i, j);
            if op == 0 then
              && i > 0 && j > 0
              && Script(r, h, i, j) == Script(r, h, i - 1, j - 1)
                 + [if r[i - 1] == h[j - 1] then Equal(i - 1, j - 1) else Substitution(i - 1, j - 1)]
            else if op == 1 then
              i > 0 && Script(r, h, i, j) == Script(r, h, i - 1, j) + [Deletion(i - 1)]
            else
              j > 0 && Script(r, h, i, j) == Script(r, h, i, j - 1) + [Insertion(i, j - 1)]
  {
  }

  // ----- Scripts, one edit at a time -----

  /** IsScript, unfolded from the last edit. */
  ghost predicate Aligns(s: seq<Edit>, r: seq<Token>, h: seq<Token>, i: nat, j: nat) {
    if s == [] then i == 0 && j == 0
    else
      var e, before := s[|s| - 1], s[..|s| - 1];
      && Labelled(e, r, h)
      && (match e
          case Equal(a, b) => i == a + 1 && j == b + 1 && Aligns(before, r, h, a, b)
          case Substitution(a, b) => i == a + 1 && j == b + 1 && Aligns(before, r, h, a, b)
          case Deletion(a) => i == a + 1 && Aligns(before, r, h, a, j)
          case Insertion(a, b) => i == a && j == b + 1 && Aligns(before, r, h, a, b))
  }

  lemma RangeStep(s: seq<nat>, x: nat, n: nat)
    ensures s + [x] == Range(n) <==> n == x + 1 && s == Range(x)
  {
    if s + [x] == Range(n) {
      assert Range(n)[n - 1] == x;
      assert s == (s + [x])[..n - 1] == Range(n - 1);
    }
  }

  lemma RefIndicesLast(s: seq<Edit>, i: nat)
    requires s != []
    ensures RefIndices(s) == Range(i) <==>
            var e, before := s[|s| - 1], s[..|s| - 1];
            if e.Insertion? then RefIndices(before) == Range(i)
            else i == e.i + 1 && RefIndices(before) == Range(e.i)
  {
    var e, before := s[|s| - 1], s[..|s| - 1];
    if e.Insertion? { assert RefIndices(s) == RefIndices(before); } else { RangeStep(RefIndices(before), e.i, i); }
  }

  lemma HypIndicesLast(s: seq<Edit>, j: nat)
    requires s != []
    ensures HypIndices(s) == Range(j) <==>
            var e, before := s[|s| - 1], s[..|s| - 1];
            if e.Deletion? then HypIndices(before) == Range(j)
            else j == e.j + 1 && HypIndices(before) == Range(e.j)
  {
    var e, before := s[|s| - 1], s[..|s| - 1];
    if e.Deletion? { assert HypIndices(s) == HypIndices(before); } else { RangeStep(HypIndices(before), e.j, j); }
  }

  lemma LabelsLast(s: seq<Edit>, r: seq<Token>, h: seq<Token>)
    requires s != []
    ensures AllLabelled(s, r, h) <==> Labelled(s[|s| - 1], r, h) && AllLabelled(s[..|s| - 1], r, h)
  {
    assert forall k :: 0 <= k < |s| - 1 ==> s[..|s| - 1][k] == s[k];
  }

  lemma PlacesLast(s: seq<Edit>)
    requires s != []
    ensures var e, before := s[|s| - 1], s[..|s| - 1];
            AllPlaced(s) <==> AllPlaced(before) && (e.Insertion? ==> e.i == |RefIndices(before)|)
  {
    var before := s[..|s| - 1];
    forall k | 0 <= k < |before| ensures before[k] == s[k] && before[..k] == s[..k] {}
    if AllPlaced(s) {
      forall k | 0 <= k < |before| && before[k].Insertion? ensures before[k].i == |RefIndices(before[..k])| {
        assert s[k].Insertion?;
      }
    }
    if AllPlaced(before) && (s[|s| - 1].Insertion? ==> s[|s| - 1].i == |RefIndices(before)|) {
      forall k | 0 <= k < |s| && s[k].Insertion? ensures s[k].i == |RefIndices(s[..k])| {
        if k < |before| { assert before[k].Insertion?; }
      }
    }
  }

  /** The two readings of a script agree. */
  lemma {:induction false} IsScriptIffAligns(s: seq<Edit>, r: seq<Token>, h: seq<Token>, i: nat, j: nat)
    ensures IsScript(s, r, h, i, j) <==> Aligns(s, r, h, i, j)
    decreases |s|
  {
    if s != [] {
      var e, before := s[|s| - 1], s[..|s| - 1];
      RefIndicesLast(s, i);
      HypIndicesLast(s, j);
      LabelsLast(s, r, h);
      PlacesLast(s);
      IsScriptIffAligns(before, r, h, if e.Insertion? then i else e.i, if e.Deletion? then j else e.j);
    }
  }

  /** An alignment mentions only positions inside the two prefixes. */
  lemma {:induction false} AlignsBounds(s: seq<Edit>, r: seq<Token>, h: seq<Token>, i: nat, j: nat)
    requires Aligns(s, r, h, i, j)
    ensures forall e :: e in s ==> if e.Insertion? then e.i <= i else e.i < i
    ensures forall e :: e in s && !e.Deletion? ==> e.j < j
    ensures AllLabelled(s, r, h)
    ensures i <= |r| && j <= |h|
    decreases |s|
  {
    if s != [] {
      var e, before := s[|s| - 1], s[..|s| - 1];
      AlignsBounds(before, r, h, if e.Insertion? then i else i - 1, if e.Deletion? then j else j - 1);
      assert forall k :: 0 <= k < |before| ==> before[k] == s[k];
    }
  }

  // ----- Least cost -----

  /** No alignment of the two prefixes is cheaper than the table cell. */
  lemma {:induction false} DistIsLowerBound(s: seq<Edit>, r: seq<Token>, h: seq<Token>, i: nat, j: nat)
    requires Aligns(s, r, h, i, j)
    ensures i <= |r| && j <= |h| && Dist(r, h, i, j) <= Cost(s)
    decreases |s|
  {
    hide Dist;
    AlignsBounds(s, r, h, i, j);
    Neighbours(r, h, i, j);
    if s != [] {
      var e := s[|s| - 1];
      DistIsLowerBound(s[..|s| - 1], r, h, if e.Insertion? then i else i - 1, if e.Deletion? then j else j - 1);
    }
  }

  /** The script read off the table is an alignment and costs exactly the table cell. */
  lemma {:induction false} ScriptIsOptimal(r: seq<Token>, h: seq<Token>, i: nat, j: nat)
    requires i <= |r| && j <= |h|
    ensures Aligns(Script(r, h, i, j), r, h, i, j)
    ensures Cost(Script(r, h, i, j)) == Dist(r, h, i, j)
    decreases i + j
  {
    hide Dist, OpAt, Script;
    if i + j == 0 {
      NoStep(r, h);
      Neighbours(r, h, 0, 0);
    } else {
      OpCost(r, h, i, j);
      LastStep(r, h, i, j);
      var op := OpAt(r, h, i, j);
      var i', j' := if op == 0 || op == 1 then i - 1 else i, if op == 1 then j else j - 1;
      ScriptIsOptimal(r, h, i', j');
      var s, t := Script(r, h, i, j), Script(r, h, i', j');
      assert s[..|s| - 1] == t;
    }
  }

  /** The two together: the script is an alignment of the whole texts and no alignment of them
      has fewer edits that are not "equal". */
  lemma LeastScript(r: seq<Token>, h: seq<Token>)
    ensures IsScript(Script(r, h, |r|, |h|), r, h, |r|, |h|)
    ensures forall s :: IsScript(s, r, h, |r|, |h|) ==> Cost(Script(r, h, |r|, |h|)) <= Cost(s)
  {
    ScriptIsOptimal(r, h, |r|, |h|);
    IsScriptIffAligns(Script(r, h, |r|, |h|), r, h, |r|, |h|);
    forall s | IsScript(s, r, h, |r|, |h|) ensures Dist(r, h, |r|, |h|) <= Cost(s) {
      IsScriptIffAligns(s, r, h, |r|, |h|);
      DistIsLowerBound(s, r, h, |r|, |h|);
    }
  }

  // ----- Which of the least scripts -----

  /** The order in which the trace prefers the operations. */
  function Preference(e: Edit): nat {
    match e case Equal(_, _) => 0 case Substitution(_, _) => 0 case Deletion(_) => 1 case Insertion(_, _) => 2
  }

  /** The two scripts have the same last n edits, and of the two edits before those the first script's
      comes first in the order equal or substitution, deletion, insertion. */
  ghost predicate PreferredAfter(s: seq<Edit>, t: seq<Edit>, n: nat) {
    && n < |s| && n < |t| && s[|s| - n..] == t[|t| - n..]
    && Preference(s[|s| - n - 1]) < Preference(t[|t| - n - 1])
  }

  /** Read from the end, the first script has the preferred edit where the two first differ. */
  ghost predicate Preferred(s: seq<Edit>, t: seq<Edit>) {
    exists n: nat :: PreferredAfter(s, t, n)
  }

  /** A script of the texts that costs no more than any other and is preferred to all of its cost. */
  ghost predicate IsChosen(s: seq<Edit>, r: seq<Token>, h: seq<Token>) {
    && IsScript(s, r, h, |r|, |h|)
    && (forall t :: IsScript(t, r, h, |r|, |h|) ==> Cost(s) <= Cost(t))
    && (forall t :: IsScript(t, r, h, |r|, |h|) && Cost(t) == Cost(s) && t != s ==> Preferred(s, t))
  }

  lemma PreferredBehind(s: seq<Edit>, t: seq<Edit>, e: Edit)
    requires Preferred(s, t)
    ensures Preferred(s + [e], t + [e])
  {
    var n: nat :| PreferredAfter(s, t, n);
    var s', t' := s + [e], t + [e];
    assert s'[|s'| - (n + 1)..] == s[|s| - n..] + [e];
    assert t'[|t'| - (n + 1)..] == t[|t| - n..] + [e];
    assert PreferredAfter(s', t', n + 1);
  }

  /** An alignment as cheap as the cell ends in one of the operations that are least there, and the
      part before its last edit is as cheap as the cell that edit leads to. */
  lemma LastOfLeast(s: seq<Edit>, r: seq<Token>, h: seq<Token>, i: nat, j: nat)
    requires Aligns(s, r, h, i, j) && s != [] && i <= |r| && j <= |h| && Cost(s) == Dist(r, h, i, j)
    ensures var e, before := s[|s| - 1], s[..|s| - 1];
            var i', j' := if e.Insertion? then i else i - 1, if e.Deletion? then j else j - 1;
            && 0 <= i' && 0 <= j' && Aligns(before, r, h, i', j') && Cost(before) == Dist(r, h, i', j')
            && OpAt(r, h, i, j) as nat <= Preference(e)
  {
    hide Dist;
    var e, before := s[|s| - 1], s[..|s| - 1];
    var i', j' := if e.Insertion? then i else i - 1, if e.Deletion? then j else j - 1;
    DistIsLowerBound(before, r, h, i', j');
    Neighbours(r, h, i, j);
    if i > 0 && j > 0 { InnerCell(r, h, i, j); }
  }

  lemma {:induction false} ScriptIsPreferred(s: seq<Edit>, r: seq<Token>, h: seq<Token>, i: nat, j: nat)
    requires i <= |r| && j <= |h|
    requires Aligns(s, r, h, i, j) && Cost(s) == Dist(r, h, i, j)
    ensures s == Script(r, h, i, j) || Preferred(Script(r, h, i, j), s)
    decreases i + j
  {
    hide Dist, OpAt, Script, Preferred;
    ScriptIsOptimal(r, h, i, j);
    if i + j == 0 {
      NoStep(r, h);
    } else {
      var own := Script(r, h, i, j);
      LastStep(r, h, i, j);
      LastOfLeast(s, r, h, i, j);
      var e, before := s[|s| - 1], s[..|s| - 1];
      if OpAt(r, h, i, j) as nat == Preference(e) {
        var i', j' := if e.Insertion? then i else i - 1, if e.Deletion? then j else j - 1;
        assert own == Script(r, h, i', j') + [e] && s == before + [e];
        ScriptIsPreferred(before, r, h, i', j');
        if before != Script(r, h, i', j') { PreferredBehind(Script(r, h, i', j'), before, e); }
      } else {
        DiffersAtOnce(own, s);
      }
    }
  }

  lemma DiffersAtOnce(s: seq<Edit>, t: seq<Edit>)
    requires s != [] && t != [] && Preference(s[|s| - 1]) < Preference(t[|t| - 1])
    ensures Preferred(s, t)
  {
    assert PreferredAfter(s, t, 0);
  }

  lemma ScriptIsChosen(r: seq<Token>, h: seq<Token>)
    ensures IsChosen(Script(r, h, |r|, |h|), r, h)
  {
    hide Preferred;
    LeastScript(r, h);
    ScriptIsOptimal(r, h, |r|, |h|);
    var own := Script(r, h, |r|, |h|);
    forall t | IsScript(t, r, h, |r|, |h|) && Cost(t) == Cost(own) && t != own ensures Preferred(own, t) {
      IsScriptIffAligns(t, r, h, |r|, |h|);
      ScriptIsPreferred(t, r, h, |r|, |h|);
    }
  }

  /** Only one script of two texts is chosen. */
  lemma ChosenIsUnique(s: seq<Edit>, t: seq<Edit>, r: seq<Token>, h: seq<Token>)
    requires IsChosen(s, r, h) && IsChosen(t, r, h)
    ensures s == t
  {
    hide IsScript, Cost, Preferred;
    if s != t { NotBothPreferred(s, t); }
  }

  lemma SameFromTheEnd(s: seq<Edit>, t: seq<Edit>, n: nat, k: nat)
    requires k < n <= |s| && n <= |t| && s[|s| - n..] == t[|t| - n..]
    ensures s[|s| - k - 1] == t[|t| - k - 1]
  {
    assert s[|s| - n..][n - k - 1] == s[|s| - k - 1] && t[|t| - n..][n - k - 1] == t[|t| - k - 1];
  }

  lemma NoTwoDifferences(s: seq<Edit>, t: seq<Edit>, m: nat, n: nat)
    ensures !(PreferredAfter(s, t, m) && PreferredAfter(t, s, n))
  {
    if m < n <= |s| && n <= |t| && s[|s| - n..] == t[|t| - n..] { SameFromTheEnd(s, t, n, m); }
    if n < m <= |s| && m <= |t| && s[|s| - m..] == t[|t| - m..] { SameFromTheEnd(s, t, m, n); }
  }

  lemma NotBothPreferred(s: seq<Edit>, t: seq<Edit>)
    ensures !(Preferred(s, t) && Preferred(t, s))
  {
    forall m: nat, n: nat ensures !(PreferredAfter(s, t, m) && PreferredAfter(t, s, n)) { NoTwoDifferences(s, t, m, n); }
  }

  // ----- What a script does -----

  /** Replaying any script turns the reference into the hypothesis. */
  lemma {:induction false} ReplayGivesHypothesis(s: seq<Edit>, r: seq<Token>, h: seq<Token>, i: nat, j: nat)
    requires Aligns(s, r, h, i, j)
    ensures AllLabelled(s, r, h)
    ensures j <= |h| && Replay(s, r, h) == h[..j]
    decreases |s|
  {
    AlignsBounds(s, r, h, i, j);
    if s != [] {
      var e := s[|s| - 1];
      ReplayGivesHypothesis(s[..|s| - 1], r, h, if e.Insertion? then i else i - 1, if e.Deletion? then j else j - 1);
    }
  }

  // ----- The totals form a metric -----

  /** The total the scorer reports for a pair of texts. */
  function Errors(a: seq<Token>, b: seq<Token>): nat {
    Cost(Script(a, b, |a|, |b|))
  }

  lemma {:induction false} DistSymmetric(a: seq<Token>, b: seq<Token>, i: nat, j: nat)
    requires i <= |a| && j <= |b|
    ensures Dist(a, b, i, j) == Dist(b, a, j, i)
    decreases i + j
  {
    hide Dist;
    Neighbours(a, b, i, j);
    Neighbours(b, a, j, i);
    if i > 0 && j > 0 {
      InnerCell(a, b, i, j);
      InnerCell(b, a, j, i);
      DistSymmetric(a, b, i - 1, j - 1);
      DistSymmetric(a, b, i - 1, j);
      DistSymmetric(a, b, i, j - 1);
    }
  }

  lemma {:induction false} DistZero(a: seq<Token>, b: seq<Token>, i: nat, j: nat)
    requires i <= |a| && j <= |b|
    ensures Dist(a, b, i, j) == 0 <==> a[..i] == b[..j]
    decreases i + j
  {
    hide Dist;
    Neighbours(a, b, i, j);
    if i > 0 && j > 0 {
      InnerCell(a, b, i, j);
      DistZero(a, b, i - 1, j - 1);
      assert a[..i] == a[..i - 1] + [a[i - 1]] && b[..j] == b[..j - 1] + [b[j - 1]];
    }
  }

  lemma {:induction false} DistTriangle(a: seq<Token>, b: seq<Token>, c: seq<Token>, i: nat, j: nat, k: nat)
    requires i <= |a| && j <= |b| && k <= |c|
    ensures Dist(a, c, i, k) <= Dist(a, b, i, j) + Dist(b, c, j, k)
    decreases i + j + k
  {
    hide Dist, OpAt;
    Neighbours(a, c, i, k);
    Neighbours(a, b, i, j);
    Neighbours(b, c, j, k);
    if j == 0 {
      DistLength(a, c, i, k);
    } else if i == 0 {
      DistLength(b, c, j, k);
    } else if k == 0 {
      DistLength(a, b, i, j);
    } else {
      InnerCell(a, b, i, j);
      InnerCell(b, c, j, k);
      var first, second := OpAt(a, b, i, j), OpAt(b, c, j, k);
      if first == 1 {
        DistTriangle(a, b, c, i - 1, j, k);
      } else if second != 0 && second != 1 {
        DistTriangle(a, b, c, i, j, k - 1);
      } else {
        DistTriangle(a, b, c, if first == 0 then i - 1 else i, j - 1, if second == 0 then k - 1 else k);
      }
    }
  }

  lemma {:induction false} DistLength(a: seq<Token>, b: seq<Token>, i: nat, j: nat)
    requires i <= |a| && j <= |b|
    ensures i - j <= Dist(a, b, i, j) <= i + j
    ensures j - i <= Dist(a, b, i, j)
    decreases i + j
  {
    if i > 0 && j > 0 {
      DistLength(a, b, i - 1, j - 1);
      DistLength(a, b, i - 1, j);
      DistLength(a, b, i, j - 1);
    }
  }

  /** The reported total is a metric on texts: zero exactly for equal texts, symmetric, and
      subject to the triangle inequality. */
  lemma ErrorsAreAMetric(a: seq<Token>, b: seq<Token>, c: seq<Token>)
    ensures Errors(a, b) == 0 <==> a == b
    ensures Errors(a, b) == Errors(b, a)
    ensures Errors(a, c) <= Errors(a, b) + Errors(b, c)
  {
    ScriptIsOptimal(a, b, |a|, |b|);
    ScriptIsOptimal(b, a, |b|, |a|);
    ScriptIsOptimal(a, c, |a|, |c|);
    ScriptIsOptimal(b, c, |b|, |c|);
    DistZero(a, b, |a|, |b|);
    assert a[..|a|] == a && b[..|b|] == b;
    DistSymmetric(a, b, |a|, |b|);
    DistTriangle(a, b, c, |a|, |b|, |c|);
  }

  // ----- The program -----

  /** The number of cells in `rows` rows, which is also where row `rows` starts in the trace. */
  function Cells(rows: nat, width: nat): nat {
    rows * width
  }

  lemma RowFits(rows: nat, width: nat, i: nat)
    requires i < rows
    ensures Cells(i, width) + width == Cells(i + 1, width) <= Cells(rows, width)
    ensures Cells(0, width) == 0
  {
  }

  /** The operations of row i in columns below j. */
  ghost function RowTrace(r: seq<Token>, h: seq<Token>, i: nat, j: nat): (t: seq<byte>)
    requires i <= |r| && j <= |h| + 1
    ensures |t| == j
    ensures forall b :: 0 <= b < j ==> t[b] == OpAt(r, h, i, b)
  {
    if j == 0 then [] else RowTrace(r, h, i, j - 1) + [OpAt(r, h, i, j - 1)]
  }

  /** The operations of all rows below i, one row behind another. */
  ghost function RowsTrace(r: seq<Token>, h: seq<Token>, i: nat): (t: seq<byte>)
    requires i <= |r| + 1
    ensures |t| == Cells(i, |h| + 1)
  {
    if i == 0 then [] else RowsTrace(r, h, i - 1) + RowTrace(r, h, i - 1, |h| + 1)
  }

  /** The flat position of a cell lies in the trace and holds that cell's operation. */
  lemma {:induction false} CellPosition(r: seq<Token>, h: seq<Token>, rows: nat, i: nat, j: nat)
    requires i < rows <= |r| + 1 && j <= |h|
    ensures Cells(i, |h| + 1) + j < Cells(rows, |h| + 1)
    ensures RowsTrace(r, h, rows)[Cells(i, |h| + 1) + j] == OpAt(r, h, i, j)
    decreases rows
  {
    hide OpAt, Cells;
    RowFits(rows, |h| + 1, rows - 1);
    RowFits(rows, |h| + 1, i);
    if i < rows - 1 { CellPosition(r, h, rows - 1, i, j); }
  }

  /** The last element first. */
  function Reversed<A>(s: seq<A>): seq<A> {
    if s == [] then [] else [s[|s| - 1]] + Reversed(s[..|s| - 1])
  }

  lemma FirstCell(r: seq<Token>, h: seq<Token>, i: nat)
    requires 0 < i <= |r|
    ensures OpAt(r, h, i, 0) == 1 && Dist(r, h, i, 0) == i
  {
  }

  lemma InnerCell(r: seq<Token>, h: seq<Token>, i: nat, j: nat)
    requires 0 < i <= |r| && 0 < j <= |h|
    ensures var diagonal := Dist(r, h, i - 1, j - 1) + Mismatch(r, h, i, j);
            var up, left := Dist(r, h, i - 1, j) + 1, Dist(r, h, i, j - 1) + 1;
            var op := FirstLeast(diagonal, up, left);
            && OpAt(r, h, i, j) == op
            && Dist(r, h, i, j) == if op == 0 then diagonal else if op == 1 then up else left
  {
  }

  lemma ReversedStep(s: seq<Edit>, e: Edit)
    ensures Reversed(s + [e]) == [e] + Reversed(s)
    ensures Reversed<Edit>([]) == []
  {
    assert (s + [e])[..|s|] == s;
  }

  method FillRow(r: seq<Token>, h: seq<Token>, i: nat, start: nat, previous: seq<nat>, trace: array<byte>)
    returns (current: seq<nat>)
    requires 0 < i <= |r| && start + |h| + 1 <= trace.Length
    requires |previous| == |h| + 1 && forall j :: 0 <= j <= |h| ==> previous[j] == Dist(r, h, i - 1, j)
    modifies trace
    ensures trace[..start] == old(trace[..start])
    ensures trace[start..start + |h| + 1] == RowTrace(r, h, i, |h| + 1)
    ensures |current| == |h| + 1 && forall j :: 0 <= j <= |h| ==> current[j] == Dist(r, h, i, j)
  {
    hide Dist, OpAt, FirstLeast, RowTrace;
    var width := |h| + 1;
    var word := r[i - 1];
    current := [i];
    FirstCell(r, h, i);
    trace[start] := 1;
    ghost var row := [OpAt(r, h, i, 0)];
    for j := 1 to width
      invariant |current| == j == |row|
      invariant trace[..start] == old(trace[..start])
      invariant trace[start..start + j] == row
      invariant forall c :: 0 <= c < j ==> row[c] == OpAt(r, h, i, c)
      invariant forall c :: 0 <= c < j ==> current[c] == Dist(r, h, i, c)
    {
      var other := h[j - 1];
      var diagonal := previous[j - 1] + (if word != other then 1 else 0);
      var up := previous[j] + 1;
      var left := current[j - 1] + 1;
      var operation := FirstLeast(diagonal, up, left);
      InnerCell(r, h, i, j);
      current := current + [if operation == 0 then diagonal else if operation == 1 then up else left];
      trace[start + j] := operation;
      row := row + [operation];
      assert trace[start..start + j + 1] == trace[start..start + j] + [operation];
    }
    assert row == RowTrace(r, h, i, width);
  }

  method CreateTrace(r: seq<Token>, h: seq<Token>) returns (trace: array<byte>, previous: seq<nat>)
    ensures fresh(trace) && trace.Length == Cells(|r| + 1, |h| + 1) >= |h| + 1
    ensures trace[..|h| + 1] == RowTrace(r, h, 0, |h| + 1)
    ensures |previous| == |h| + 1 && forall j :: 0 <= j <= |h| ==> previous[j] == Dist(r, h, 0, j)
  {
    hide Dist, OpAt;
    TopRow(r, h);
    var width := |h| + 1;
    RowFits(|r| + 1, width, 0);
    trace := new byte[Cells(|r| + 1, width)](_ => 0);
    previous := seq(width, j => j);
    for j := 1 to width
      invariant trace[..j] == RowTrace(r, h, 0, j)
    {
      trace[j] := 2;
    }
  }

  method FillTrace(r: seq<Token>, h: seq<Token>) returns (trace: array<byte>)
    ensures fresh(trace) && trace.Length == Cells(|r| + 1, |h| + 1)
    ensures trace[..] == RowsTrace(r, h, |r| + 1)
  {
    hide Dist, OpAt, RowsTrace, RowTrace, Cells;
    var width := |h| + 1;
    var previous;
    trace, previous := CreateTrace(r, h);
    NextRow(r, h, 0);
    ghost var start := width;
    for i := 1 to |r| + 1
      invariant |previous| == width
      invariant start == Cells(i, width) <= trace.Length
      invariant trace[..start] == RowsTrace(r, h, i)
      invariant forall j :: 0 <= j < width ==> previous[j] == Dist(r, h, i - 1, j)
    {
      RowFits(|r| + 1, width, i);
      previous := FillRow(r, h, i, Cells(i, width), previous, trace);
      NextRow(r, h, i);
      assert trace[..start + width] == trace[..start] + trace[start..start + width];
      start := start + width;
    }
  }

  lemma NextRow(r: seq<Token>, h: seq<Token>, i: nat)
    requires i <= |r|
    ensures RowsTrace(r, h, i + 1) == RowsTrace(r, h, i) + RowTrace(r, h, i, |h| + 1)
    ensures RowsTrace(r, h, 0) == []
  {
  }

  lemma NoStep(r: seq<Token>, h: seq<Token>)
    ensures Script(r, h, 0, 0) == []
  {
  }

  method WalkBack(r: seq<Token>, h: seq<Token>, trace: array<byte>) returns (edits: seq<Edit>)
    requires trace.Length == Cells(|r| + 1, |h| + 1)
    requires trace[..] == RowsTrace(r, h, |r| + 1)
    ensures Reversed(edits) == Script(r, h, |r|, |h|)
  {
    hide Dist, OpAt, Script, RowsTrace, Cells, Reversed;
    ReversedStep([], Deletion(0));
    var width := |h| + 1;
    var i: nat, j: nat := |r|, |h|;
    edits := [];
    while i > 0 || j > 0
      invariant i <= |r| && j <= |h|
      invariant Script(r, h, |r|, |h|) == Script(r, h, i, j) + Reversed(edits)
      decreases i + j
    {
      CellPosition(r, h, |r| + 1, i, j);
      var operation := trace[Cells(i, width) + j];
      assert operation == trace[..][Cells(i, width) + j];
      ghost var done := edits;
      LastStep(r, h, i, j);
      if operation == 0 {
        i, j := i - 1, j - 1;
        edits := edits + [if r[i] == h[j] then Equal(i, j) else Substitution(i, j)];
      } else if operation == 1 {
        i := i - 1;
        edits := edits + [Deletion(i)];
      } else {
        j := j - 1;
        edits := edits + [Insertion(i, j)];
      }
      ReversedStep(done, edits[|edits| - 1]);
    }
    NoStep(r, h);
  }

  /** The script the scorer works with. Of the cheapest scripts it is the one that, read from the end,
      keeps or substitutes before it deletes and deletes before it inserts, so there is only one. */
  method Align(reference: seq<Token>, hypothesis: seq<Token>) returns (result: Result<seq<Edit>, string>)
    ensures result.Success? <==> |reference| <= 5000 && |hypothesis| <= 5000
    ensures result.Success? ==> IsChosen(result.value, reference, hypothesis)
    ensures result.Success? ==> result.value == Script(reference, hypothesis, |reference|, |hypothesis|)
  {
    if |reference| > MAX_TOKENS || |hypothesis| > MAX_TOKENS {
      return Failure("at most 5000 normalized tokens per clip");
    }
    var trace := FillTrace(reference, hypothesis);
    var edits := WalkBack(reference, hypothesis, trace);
    ScriptIsChosen(reference, hypothesis);
    return Success(Reversed(edits));
  }
}
