/** Matching of detected text boxes to reference boxes in one frame, best overlap first. */
module BoxMatching {
  import opened Lists
  import opened Numbers

  datatype Box = Box(left: int, top: int, right: int, bottom: int)

  /** A box with positive area; the scorer refuses any other. */
  predicate BoxValid(b: Box) {
    b.left < b.right && b.top < b.bottom
  }

  function Area(b: Box): int {
    (b.right - b.left) * (b.bottom - b.top)
  }

  function Intersection(a: Box, b: Box): int {
    Max(0, Min(a.right, b.right) - Max(a.left, b.left)) * Max(0, Min(a.bottom, b.bottom) - Max(a.top, b.top))
  }

  /** Intersection over union. */
  function Iou(a: Box, b: Box): real
    requires BoxValid(a) && BoxValid(b)
  {
    UnionPositive(a, b);
    Intersection(a, b) as real / (Area(a) + Area(b) - Intersection(a, b)) as real
  }

  // ----- Overlap -----

  lemma Grow(a: int, b: int, c: int)
    requires 0 <= a <= b && 0 <= c
    ensures 0 <= a * c <= b * c
    ensures 0 < c && a < b ==> a * c < b * c
  {
  }

  lemma Product(a: int, b: int, c: int, d: int)
    requires 0 <= a <= c && 0 <= b <= d && 0 < c && 0 < d
    ensures 0 <= a * b <= c * d && 0 < c * d
    ensures a * b == c * d ==> a == c && b == d
    ensures a * b == 0 <==> a == 0 || b == 0
  {
    Grow(a, c, b);
    Grow(b, d, c);
    Grow(0, c, d);
    if a > 0 { Grow(0, b, a); }
  }

  lemma InsideBoth(a: Box, b: Box)
    requires BoxValid(a) && BoxValid(b)
    ensures 0 <= Intersection(a, b) <= Area(a)
    ensures Intersection(a, b) == Area(a) ==>
              a.left >= b.left && a.right <= b.right && a.top >= b.top && a.bottom <= b.bottom
    ensures Intersection(a, b) == 0 <==>
              a.right <= b.left || b.right <= a.left || a.bottom <= b.top || b.bottom <= a.top
  {
    Product(Max(0, Min(a.right, b.right) - Max(a.left, b.left)), Max(0, Min(a.bottom, b.bottom) - Max(a.top, b.top)),
            a.right - a.left, a.bottom - a.top);
  }

  lemma UnionPositive(a: Box, b: Box)
    requires BoxValid(a) && BoxValid(b)
    ensures Area(a) + Area(b) - Intersection(a, b) > 0
  {
    InsideBoth(a, b);
    Product(0, 0, b.right - b.left, b.bottom - b.top);
  }

  lemma Scale(x: real, y: real, d: real)
    requires 0.0 < d
    ensures x < y <==> x * d < y * d
  {
  }

  lemma Ratio(n: int, d: int)
    requires 0 <= n <= d && 0 < d
    ensures 0.0 <= n as real / d as real <= 1.0
    ensures n as real / d as real == 1.0 <==> n == d
    ensures n as real / d as real == 0.0 <==> n == 0
  {
    var q := n as real / d as real;
    assert q * d as real == n as real;
    Scale(q, 1.0, d as real);
    Scale(1.0, q, d as real);
    Scale(q, 0.0, d as real);
    Scale(0.0, q, d as real);
  }

  /** The overlap of two boxes lies between 0 and 1, is the same in both directions, is 1 exactly
      for equal boxes and 0 exactly for boxes that share no interior point. */
  lemma IouMeaning(a: Box, b: Box)
    requires BoxValid(a) && BoxValid(b)
    ensures 0.0 <= Iou(a, b) <= 1.0
    ensures Iou(a, b) == Iou(b, a)
    ensures Iou(a, b) == 1.0 <==> a == b
    ensures Iou(a, b) == 0.0 <==>
              a.right <= b.left || b.right <= a.left || a.bottom <= b.top || b.bottom <= a.top
  {
    var shared := Intersection(a, b);
    InsideBoth(a, b);
    InsideBoth(b, a);
    assert Intersection(b, a) == shared;
    UnionPositive(a, b);
    Ratio(shared, Area(a) + Area(b) - shared);
    if a == b { assert shared == Area(a); }
  }

  // ----- Overlap, counted -----

  /** The unit cells of a box. */
  ghost function CellsOf(b: Box): set<(int, int)> {
    set x, y | b.left <= x < b.right && b.top <= y < b.bottom :: (x, y)
  }

  lemma {:induction false} ColumnSize(x: int, top: int, bottom: int)
    requires top <= bottom
    ensures |CellsOf(Box(x, top, x + 1, bottom))| == bottom - top
    decreases bottom - top
  {
    var cells := CellsOf(Box(x, top, x + 1, bottom));
    if top == bottom {
      assert cells == {};
    } else {
      var fewer := CellsOf(Box(x, top, x + 1, bottom - 1));
      assert cells == fewer + {(x, bottom - 1)} && (x, bottom - 1) !in fewer;
      ColumnSize(x, top, bottom - 1);
    }
  }

  lemma AreaGrows(b: Box)
    ensures Area(b) == Area(b.(right := b.right - 1)) + (b.bottom - b.top)
  {
  }

  lemma {:induction false} AreaCountsCells(b: Box)
    requires b.left <= b.right && b.top <= b.bottom
    ensures |CellsOf(b)| == Area(b)
    decreases b.right - b.left
  {
    if b.left == b.right {
      assert CellsOf(b) == {};
    } else {
      var narrower, column := b.(right := b.right - 1), Box(b.right - 1, b.top, b.right, b.bottom);
      assert CellsOf(b) == CellsOf(narrower) + CellsOf(column) && CellsOf(narrower) !! CellsOf(column);
      AreaCountsCells(narrower);
      ColumnSize(b.right - 1, b.top, b.bottom);
      AreaGrows(b);
    }
  }

  /** The box that two boxes share; empty where they do not meet. */
  function SharedBox(a: Box, b: Box): Box {
    var left, top := Max(a.left, b.left), Max(a.top, b.top);
    Box(left, top, Max(left, Min(a.right, b.right)), Max(top, Min(a.bottom, b.bottom)))
  }

  lemma SharedArea(a: Box, b: Box)
    ensures Area(SharedBox(a, b)) == Intersection(a, b)
  {
    var shared := SharedBox(a, b);
    assert shared.right - shared.left == Max(0, Min(a.right, b.right) - Max(a.left, b.left));
    assert shared.bottom - shared.top == Max(0, Min(a.bottom, b.bottom) - Max(a.top, b.top));
  }

  lemma InSharedBox(a: Box, b: Box)
    ensures CellsOf(a) * CellsOf(b) == CellsOf(SharedBox(a, b))
  {
    forall x, y ensures (x, y) in CellsOf(a) * CellsOf(b) <==> (x, y) in CellsOf(SharedBox(a, b)) {}
  }

  lemma SharedCells(a: Box, b: Box)
    ensures |CellsOf(a) * CellsOf(b)| == Intersection(a, b)
  {
    SharedArea(a, b);
    InSharedBox(a, b);
    hide Area, Intersection, CellsOf;
    AreaCountsCells(SharedBox(a, b));
  }

  /** The overlap is the share of the cells of either box that are cells of both. */
  lemma IouCountsCells(a: Box, b: Box)
    requires BoxValid(a) && BoxValid(b)
    ensures var both, either := CellsOf(a) * CellsOf(b), CellsOf(a) + CellsOf(b);
            |either| > 0 && Iou(a, b) == |both| as real / |either| as real
  {
    AreaCountsCells(a);
    AreaCountsCells(b);
    SharedCells(a, b);
    UnionPositive(a, b);
    var both, either := CellsOf(a) * CellsOf(b), CellsOf(a) + CellsOf(b);
    assert |either| == |CellsOf(a)| + |CellsOf(b)| - |both|;
    hide Area, Intersection, CellsOf;
  }

  // ----- Candidate pairs -----

  /** Reference box i and detection j, with their overlap. */
  datatype Pair = Pair(overlap: real, i: nat, j: nat)

  ghost predicate Candidate(rows: seq<Box>, found: seq<Box>, threshold: nat, p: Pair)
    requires AllValid(rows) && AllValid(found)
  {
    && p.i < |rows| && p.j < |found| && p.overlap == Iou(rows[p.i], found[p.j])
    && p.overlap * 1000.0 >= threshold as real
  }

  predicate AllValid(boxes: seq<Box>) {
    forall b :: b in boxes ==> BoxValid(b)
  }

  /** The order of the sort key (-overlap, i, j). */
  predicate Before(p: Pair, q: Pair) {
    p.overlap > q.overlap || (p.overlap == q.overlap && (p.i < q.i || (p.i == q.i && p.j < q.j)))
  }

  /** By falling overlap; among equals by reference box, then by detection. */
  ghost predicate Ordered(s: seq<Pair>) {
    forall a, b :: 0 <= a < b < |s| ==>
      || s[a].overlap > s[b].overlap
      || (s[a].overlap == s[b].overlap && (s[a].i < s[b].i || (s[a].i == s[b].i && s[a].j < s[b].j)))
  }

  /** No two pairs join the same two boxes. */
  predicate DistinctPairs(s: seq<Pair>) {
    forall a, b :: 0 <= a < b < |s| ==> s[a].i != s[b].i || s[a].j != s[b].j
  }

  /** Sorting distinct pairs leaves no ties. */
  lemma SortedAreOrdered(s: seq<Pair>)
    requires DistinctPairs(s)
    ensures Ordered(Sort(s, Before)) && forall p :: p in Sort(s, Before) <==> p in s
  {
    SortSorts(s, Before);
    SamePermutation(Sort(s, Before), s);
    PermutedDistinct(s, Sort(s, Before), (p: Pair) => (p.i, p.j));
  }

  // ----- What a matching promises -----

  /** The pairs of a matching: one-to-one, all of them candidates, and no candidate left out
      unless one of its two boxes is matched by a pair that sorts before it. */
  ghost predicate Stable(rows: seq<Box>, found: seq<Box>, threshold: nat, m: set<Pair>)
    requires AllValid(rows) && AllValid(found)
  {
    && (forall p :: p in m ==> Candidate(rows, found, threshold, p))
    && (forall p, q :: p in m && q in m && (p.i == q.i || p.j == q.j) ==> p == q)
    && (forall p :: Candidate(rows, found, threshold, p) && p !in m ==> Taken(m, p))
  }

  /** One of its boxes is in a pair that overlaps more, or equally and comes first by its positions. */
  ghost predicate Taken(m: set<Pair>, p: Pair) {
    exists q :: q in m && (q.i == p.i || q.j == p.j)
                && (q.overlap > p.overlap
                    || (q.overlap == p.overlap && (q.i < p.i || (q.i == p.i && q.j < p.j))))
  }

  /** There is exactly one such matching: a candidate belongs to it or not, whatever the way it
      was found. `earlier` bounds the pairs that may still sort before it. */
  lemma {:induction false} StableAgree(rows: seq<Box>, found: seq<Box>, threshold: nat, m: set<Pair>, n: set<Pair>,
                                       p: Pair, earlier: set<Pair>)
    requires AllValid(rows) && AllValid(found)
    requires Stable(rows, found, threshold, m) && Stable(rows, found, threshold, n)
    requires p in m
    requires forall q :: q in m + n && Before(q, p) ==> q in earlier
    ensures p in n
    decreases |earlier|
  {
    if p !in n {
      assert Candidate(rows, found, threshold, p) && Taken(n, p);
      var q :| q in n && (q.i == p.i || q.j == p.j) && Before(q, p);
      StableAgree(rows, found, threshold, n, m, q, earlier - {q});
    }
  }

  lemma StableIsUnique(rows: seq<Box>, found: seq<Box>, threshold: nat, m: set<Pair>, n: set<Pair>)
    requires AllValid(rows) && AllValid(found)
    requires Stable(rows, found, threshold, m) && Stable(rows, found, threshold, n)
    ensures m == n
  {
    forall p | p in m ensures p in n { StableAgree(rows, found, threshold, m, n, p, m + n); }
    forall p | p in n ensures p in m { StableAgree(rows, found, threshold, n, m, p, m + n); }
  }

  /** The pairs that a matching of reference boxes to detections stands for. */
  ghost function PairsOf(rows: seq<Box>, found: seq<Box>, matches: map<nat, nat>): set<Pair>
    requires AllValid(rows) && AllValid(found)
    requires forall i :: i in matches ==> i < |rows| && matches[i] < |found|
  {
    set i | i in matches :: Pair(Iou(rows[i], found[matches[i]]), i, matches[i])
  }

  lemma PairsMatched(rows: seq<Box>, found: seq<Box>, threshold: nat, pairs: set<Pair>, matches: map<nat, nat>, used: set<nat>)
    requires AllValid(rows) && AllValid(found)
    requires forall p :: p in pairs ==> Candidate(rows, found, threshold, p)
    requires forall i :: i in matches <==> exists p :: p in pairs && p.i == i
    requires forall p :: p in pairs ==> p.i in matches && matches[p.i] == p.j
    requires forall j :: j in used <==> exists p :: p in pairs && p.j == j
    ensures forall i :: i in matches ==> i < |rows| && matches[i] < |found|
    ensures PairsOf(rows, found, matches) == pairs && used == matches.Values
  {
    hide Iou;
    forall i | i in matches ensures i < |rows| && matches[i] < |found|
                                    && Pair(Iou(rows[i], found[matches[i]]), i, matches[i]) in pairs {
      var p :| p in pairs && p.i == i;
      assert Candidate(rows, found, threshold, p);
    }
    forall p | p in pairs ensures p in PairsOf(rows, found, matches) {
      assert Candidate(rows, found, threshold, p);
    }
    forall j ensures j in used <==> j in matches.Values {
      if j in used { var p :| p in pairs && p.j == j; }
      if j in matches.Values { var i :| i in matches && matches[i] == j; var p :| p in pairs && p.i == i; }
    }
  }

  // ----- The program -----

  method Candidates(rows: seq<Box>, found: seq<Box>, threshold: nat) returns (candidates: seq<Pair>)
    requires AllValid(rows) && AllValid(found)
    ensures Ordered(candidates)
    ensures forall p :: p in candidates <==> Candidate(rows, found, threshold, p)
  {
    var listed: seq<Pair> := [];
    for i := 0 to |rows|
      invariant DistinctPairs(listed)
      invariant forall p :: p in listed <==> Candidate(rows, found, threshold, p) && p.i < i
    {
      for j := 0 to |found|
        invariant DistinctPairs(listed)
        invariant forall p :: p in listed <==>
                                Candidate(rows, found, threshold, p) && (p.i < i || (p.i == i && p.j < j))
      {
        assert rows[i] in rows && found[j] in found;
        var overlap := Iou(rows[i], found[j]);
        if overlap * 1000.0 >= threshold as real {
          assert forall a :: 0 <= a < |listed| ==> listed[a] in listed;
          listed := listed + [Pair(overlap, i, j)];
        }
      }
    }
    candidates := Sort(listed, Before);
    SortedAreOrdered(listed);
  }

  /** The greedy pass: the best remaining candidate is taken unless one of its boxes is used. */
  method MatchBoxes(rows: seq<Box>, found: seq<Box>, threshold: nat)
    returns (matches: map<nat, nat>, used: set<nat>)
    requires AllValid(rows) && AllValid(found)
    ensures forall i :: i in matches ==> i < |rows| && matches[i] < |found|
    ensures Stable(rows, found, threshold, PairsOf(rows, found, matches))
    ensures used == matches.Values
  {
    var candidates := Candidates(rows, found, threshold);
    ghost var pairs: set<Pair> := {};
    matches, used := map[], {};
    for k := 0 to |candidates|
      invariant forall p :: p in pairs ==> p in candidates[..k]
      invariant forall p, q :: p in pairs && q in pairs && (p.i == q.i || p.j == q.j) ==> p == q
      invariant forall p :: p in candidates[..k] && p !in pairs ==> Taken(pairs, p)
      invariant forall i :: i in matches <==> exists p :: p in pairs && p.i == i
      invariant forall p :: p in pairs ==> p.i in matches && matches[p.i] == p.j
      invariant forall j :: j in used <==> exists p :: p in pairs && p.j == j
    {
      var p := candidates[k];
      assert candidates[..k + 1] == candidates[..k] + [p];
      ghost var before := pairs;
      if p.i !in matches && p.j !in used {
        matches := matches[p.i := p.j];
        used := used + {p.j};
        pairs := pairs + {p};
      }
      forall q | q in candidates[..k + 1] && q !in pairs ensures Taken(pairs, q) {
        if q == p {
          var x :| x in before && (x.i == p.i || x.j == p.j);
          assert Before(x, p);
        } else {
          assert Taken(before, q);
        }
      }
    }
    assert candidates[..|candidates|] == candidates;
    assert Stable(rows, found, threshold, pairs);
    PairsMatched(rows, found, threshold, pairs, matches, used);
  }
}
