/** The address-level comparison of two snapshots: a sweep over elementary segments
    that must agree with the change of every single address. */
module Sweep {
  import opened Wrappers
  import opened Blocks
  import opened Counting
  import opened Snapshot

  datatype Transition = Transition(from: Label, to: Label)

  datatype Change = Absent | Added | Removed | Same | Moved(t: Transition)

  /** What happened to one address between two catalogues. */
  ghost function ChangeAt(iv1: seq<Interval>, iv2: seq<Interval>, a: int): Change {
    match (LabelAt(iv1, a), LabelAt(iv2, a))
    case (None, None) => Absent
    case (None, Some(_)) => Added
    case (Some(_), None) => Removed
    case (Some(x), Some(y)) => if x == y then Same else Moved(Transition(x, y))
  }

  datatype Query = Exactly(c: Change) | AnyMove

  ghost predicate Matches(c: Change, q: Query) {
    match q
    case Exactly(d) => c == d
    case AnyMove => c.Moved?
  }

  /** The addresses whose change answers the query. */
  ghost function Changed(iv1: seq<Interval>, iv2: seq<Interval>, q: Query): int -> bool {
    a => Matches(ChangeAt(iv1, iv2, a), q)
  }

  /** The first addresses of the maximal runs of one constant transition. */
  ghost function RunStarts(iv1: seq<Interval>, iv2: seq<Interval>, q: Query): int -> bool {
    a => ChangeAt(iv1, iv2, a).Moved? && Matches(ChangeAt(iv1, iv2, a), q)
         && ChangeAt(iv1, iv2, a - 1) != ChangeAt(iv1, iv2, a)
  }

  ghost predicate InSpace(iv: seq<Interval>, width: nat) {
    SortedDisjoint(iv) && forall i :: 0 <= i < |iv| ==> 0 <= iv[i].lo && iv[i].hi < Pow2(width)
  }

  ghost function Addresses(iv1: seq<Interval>, iv2: seq<Interval>, q: Query, width: nat): nat {
    Count(Changed(iv1, iv2, q), 0, Pow2(width))
  }

  ghost function Runs(iv1: seq<Interval>, iv2: seq<Interval>, q: Query, width: nat): nat {
    Count(RunStarts(iv1, iv2, q), 0, Pow2(width))
  }

  // ---------- Segment edges ----------

  ghost predicate IsEdge(iv: seq<Interval>, e: int) {
    exists i :: 0 <= i < |iv| && (e == iv[i].lo || e == iv[i].hi + 1)
  }

  ghost predicate EdgesOf(edges: seq<int>, iv1: seq<Interval>, iv2: seq<Interval>) {
    && Increasing(edges)
    && forall e :: e in edges <==> IsEdge(iv1, e) || IsEdge(iv2, e)
  }

  method IntervalEdges(iv: seq<Interval>) returns (edges: set<int>)
    ensures forall e :: e in edges <==> IsEdge(iv, e)
  {
    edges := {};
    for i := 0 to |iv|
      invariant forall e :: e in edges <==> exists k :: 0 <= k < i && (e == iv[k].lo || e == iv[k].hi + 1)
    {
      edges := edges + {iv[i].lo, iv[i].hi + 1};
    }
  }

  /** Sorted unique segment edges of the two interval lists. */
  method Boundaries(iv1: seq<Interval>, iv2: seq<Interval>) returns (edges: seq<int>)
    ensures EdgesOf(edges, iv1, iv2)
  {
    var edges1 := IntervalEdges(iv1);
    var edges2 := IntervalEdges(iv2);
    edges := SortElements(edges1 + edges2);
  }

  /** Between two consecutive edges an interval list gives one label throughout. */
  lemma ConstantBetween(iv: seq<Interval>, a: int, b: int, x: int)
    requires SortedDisjoint(iv) && a <= x < b
    requires forall e :: a < e < b ==> !IsEdge(iv, e)
    ensures LabelAt(iv, x) == LabelAt(iv, a)
  {
    if i :| 0 <= i < |iv| && iv[i].Covers(a) {
      assert IsEdge(iv, iv[i].hi + 1);
    } else if i :| 0 <= i < |iv| && iv[i].Covers(x) {
      assert IsEdge(iv, iv[i].lo);
      assert iv[i].Covers(a);
    }
  }

  lemma NoEdgeBetween(edges: seq<int>, i: nat, e: int)
    requires Increasing(edges) && i + 1 < |edges| && edges[i] < e < edges[i + 1]
    ensures e !in edges
  {
    forall k | 0 <= k < |edges| ensures edges[k] != e {
      assert k < i ==> edges[k] < edges[i];
      assert i + 1 < k ==> edges[i + 1] < edges[k];
    }
  }

  lemma ConstantSegment(iv1: seq<Interval>, iv2: seq<Interval>, edges: seq<int>, i: nat, x: int)
    requires SortedDisjoint(iv1) && SortedDisjoint(iv2) && EdgesOf(edges, iv1, iv2)
    requires i + 1 < |edges| && edges[i] <= x < edges[i + 1]
    ensures ChangeAt(iv1, iv2, x) == ChangeAt(iv1, iv2, edges[i])
  {
    forall e | edges[i] < e < edges[i + 1] ensures !IsEdge(iv1, e) && !IsEdge(iv2, e) {
      NoEdgeBetween(edges, i, e);
    }
    ConstantBetween(iv1, edges[i], edges[i + 1], x);
    ConstantBetween(iv2, edges[i], edges[i + 1], x);
  }

  /** One segment adds its whole size to the count of its own change and nothing to others. */
  lemma SegmentCount(iv1: seq<Interval>, iv2: seq<Interval>, edges: seq<int>, i: nat, q: Query)
    requires SortedDisjoint(iv1) && SortedDisjoint(iv2) && EdgesOf(edges, iv1, iv2)
    requires i + 1 < |edges| && 0 <= edges[i]
    ensures edges[i] < edges[i + 1]
    ensures Count(Changed(iv1, iv2, q), 0, edges[i + 1])
         == Count(Changed(iv1, iv2, q), 0, edges[i])
            + if Matches(ChangeAt(iv1, iv2, edges[i]), q) then edges[i + 1] - edges[i] else 0
  {
    var p := Changed(iv1, iv2, q);
    CountSplit(p, 0, edges[i], edges[i + 1]);
    forall x | edges[i] <= x < edges[i + 1] ensures p(x) == p(edges[i]) {
      ConstantSegment(iv1, iv2, edges, i, x);
    }
    if p(edges[i]) {
      CountAll(p, edges[i], edges[i + 1]);
    } else {
      CountNone(p, edges[i], edges[i + 1]);
    }
  }

  /** Addresses before the first edge and from the last edge on are in neither catalogue. */
  lemma AbsentOutside(iv1: seq<Interval>, iv2: seq<Interval>, edges: seq<int>, x: int)
    requires SortedDisjoint(iv1) && SortedDisjoint(iv2) && EdgesOf(edges, iv1, iv2)
    requires |edges| == 0 || x < edges[0] || edges[|edges| - 1] <= x
    ensures ChangeAt(iv1, iv2, x) == Absent
  {
    forall i | 0 <= i < |iv1| ensures !iv1[i].Covers(x) {
      EdgeBracket(iv1, edges, i);
    }
    forall i | 0 <= i < |iv2| ensures !iv2[i].Covers(x) {
      EdgeBracket(iv2, edges, i);
    }
  }

  lemma EdgeBracket(iv: seq<Interval>, edges: seq<int>, i: nat)
    requires i < |iv| && Increasing(edges)
    requires forall e :: IsEdge(iv, e) ==> e in edges
    ensures |edges| > 0 && edges[0] <= iv[i].lo && iv[i].hi < edges[|edges| - 1]
  {
    assert IsEdge(iv, iv[i].lo) && IsEdge(iv, iv[i].hi + 1);
    var k :| 0 <= k < |edges| && edges[k] == iv[i].lo;
    var m :| 0 <= m < |edges| && edges[m] == iv[i].hi + 1;
    assert k > 0 ==> edges[0] < edges[k];
    assert m < |edges| - 1 ==> edges[m] < edges[|edges| - 1];
  }

  lemma EdgesInSpace(iv1: seq<Interval>, iv2: seq<Interval>, edges: seq<int>, width: nat)
    requires InSpace(iv1, width) && InSpace(iv2, width) && EdgesOf(edges, iv1, iv2)
    ensures forall i :: 0 <= i < |edges| ==> 0 <= edges[i] <= Pow2(width)
  {
    forall i | 0 <= i < |edges| ensures 0 <= edges[i] <= Pow2(width) {
      assert edges[i] in edges;
    }
  }

  lemma WholeSpace(iv1: seq<Interval>, iv2: seq<Interval>, edges: seq<int>, q: Query, width: nat)
    requires InSpace(iv1, width) && InSpace(iv2, width) && EdgesOf(edges, iv1, iv2)
    requires !Matches(Absent, q)
    ensures |edges| == 0 ==> Addresses(iv1, iv2, q, width) == 0
    ensures |edges| > 0 ==> 0 <= edges[0] && Count(Changed(iv1, iv2, q), 0, edges[0]) == 0
    ensures |edges| > 0 ==> Addresses(iv1, iv2, q, width) == Count(Changed(iv1, iv2, q), 0, edges[|edges| - 1])
  {
    var p := Changed(iv1, iv2, q);
    EdgesInSpace(iv1, iv2, edges, width);
    if |edges| == 0 {
      forall x | 0 <= x < Pow2(width) ensures !p(x) { AbsentOutside(iv1, iv2, edges, x); }
      CountNone(p, 0, Pow2(width));
    } else {
      var last := edges[|edges| - 1];
      forall x | x < edges[0] || last <= x ensures !p(x) { AbsentOutside(iv1, iv2, edges, x); }
      CountNone(p, 0, edges[0]);
      CountNone(p, last, Pow2(width));
      CountSplit(p, 0, last, Pow2(width));
    }
  }

  // ---------- Relabelled segments and their runs ----------

  datatype Range = Range(lo: int, hi: int)

  datatype Segment = Segment(lo: int, hi: int, t: Transition)

  function SumSizes(ranges: seq<Range>): int {
    if ranges == [] then 0
    else
      var last := ranges[|ranges| - 1];
      SumSizes(ranges[..|ranges| - 1]) + (last.hi - last.lo + 1)
  }

  lemma SumAppend(ranges: seq<Range>, r: Range)
    ensures SumSizes(ranges + [r]) == SumSizes(ranges) + (r.hi - r.lo + 1)
  {
    assert (ranges + [r])[..|ranges|] == ranges;
  }

  function Ranges(segs: seq<Segment>): (r: seq<Range>)
    ensures |r| == |segs|
  {
    seq(|segs|, k requires 0 <= k < |segs| => Range(segs[k].lo, segs[k].hi))
  }

  lemma RangesAppend(segs: seq<Segment>, s: Segment)
    ensures Ranges(segs + [s]) == Ranges(segs) + [Range(s.lo, s.hi)]
  {
  }

  ghost predicate InSegment(segs: seq<Segment>, x: int) {
    exists k :: 0 <= k < |segs| && segs[k].lo <= x <= segs[k].hi
  }

  /** The segments are sorted, each lies in one transition, and together they hold
      every relabelled address below `bound`. */
  ghost predicate SegmentsOf(segs: seq<Segment>, iv1: seq<Interval>, iv2: seq<Interval>, bound: int) {
    && (forall k :: 0 <= k < |segs| ==> 0 <= segs[k].lo <= segs[k].hi < bound)
    && (forall k, m :: 0 <= k < m < |segs| ==> segs[k].hi < segs[m].lo)
    && (forall k, x :: 0 <= k < |segs| && segs[k].lo <= x <= segs[k].hi ==>
          ChangeAt(iv1, iv2, x) == Moved(segs[k].t))
    && (forall x :: x < bound && ChangeAt(iv1, iv2, x).Moved? ==> InSegment(segs, x))
  }

  lemma ExtendSegments(segs: seq<Segment>, iv1: seq<Interval>, iv2: seq<Interval>, edges: seq<int>, i: nat)
    requires SortedDisjoint(iv1) && SortedDisjoint(iv2) && EdgesOf(edges, iv1, iv2)
    requires i + 1 < |edges| && 0 <= edges[i] && SegmentsOf(segs, iv1, iv2, edges[i])
    ensures var c := ChangeAt(iv1, iv2, edges[i]);
            var segs' := if c.Moved? then segs + [Segment(edges[i], edges[i + 1] - 1, c.t)] else segs;
            SegmentsOf(segs', iv1, iv2, edges[i + 1])
  {
    hide ChangeAt, SegmentsOf, EdgesOf, SortedDisjoint;
    var lo, hi, c := edges[i], edges[i + 1], ChangeAt(iv1, iv2, edges[i]);
    EdgesAscend(iv1, iv2, edges, i);
    forall x | lo <= x < hi ensures ChangeAt(iv1, iv2, x) == c {
      ConstantSegment(iv1, iv2, edges, i, x);
    }
    if c.Moved? {
      AppendSegment(segs, iv1, iv2, lo, hi, c.t);
    } else {
      SkipSegment(segs, iv1, iv2, lo, hi);
    }
  }

  lemma EdgesAscend(iv1: seq<Interval>, iv2: seq<Interval>, edges: seq<int>, i: nat)
    requires EdgesOf(edges, iv1, iv2) && i + 1 < |edges|
    ensures edges[i] < edges[i + 1]
  {
  }

  lemma AppendSegment(segs: seq<Segment>, iv1: seq<Interval>, iv2: seq<Interval>, lo: int, hi: int, t: Transition)
    requires 0 <= lo < hi && SegmentsOf(segs, iv1, iv2, lo)
    requires forall x :: lo <= x < hi ==> ChangeAt(iv1, iv2, x) == Moved(t)
    ensures SegmentsOf(segs + [Segment(lo, hi - 1, t)], iv1, iv2, hi)
  {
    hide ChangeAt;
    var segs' := segs + [Segment(lo, hi - 1, t)];
    forall x | x < hi && ChangeAt(iv1, iv2, x).Moved? ensures InSegment(segs', x) {
      if x < lo {
        var k :| 0 <= k < |segs| && segs[k].lo <= x <= segs[k].hi;
        assert segs'[k] == segs[k];
      } else {
        assert segs'[|segs|].lo <= x <= segs'[|segs|].hi;
      }
    }
  }

  lemma SkipSegment(segs: seq<Segment>, iv1: seq<Interval>, iv2: seq<Interval>, lo: int, hi: int)
    requires 0 <= lo < hi && SegmentsOf(segs, iv1, iv2, lo)
    requires forall x :: lo <= x < hi ==> !ChangeAt(iv1, iv2, x).Moved?
    ensures SegmentsOf(segs, iv1, iv2, hi)
  {
    hide ChangeAt;
  }

  function NewRun(segs: seq<Segment>, k: nat): bool
    requires k < |segs|
  {
    k == 0 || segs[k].lo != segs[k - 1].hi + 1 || segs[k].t != segs[k - 1].t
  }

  function Done(segs: seq<Segment>, k: nat): int
    requires k <= |segs|
  {
    if k == 0 then 0 else segs[k - 1].hi + 1
  }

  lemma GapNotMoved(segs: seq<Segment>, iv1: seq<Interval>, iv2: seq<Interval>, bound: int, k: nat, x: int)
    requires SegmentsOf(segs, iv1, iv2, bound) && k <= |segs|
    requires x < bound && (k < |segs| ==> x < segs[k].lo) && (k > 0 ==> segs[k - 1].hi < x)
    ensures !ChangeAt(iv1, iv2, x).Moved?
  {
    forall m | 0 <= m < |segs| ensures !(segs[m].lo <= x <= segs[m].hi) {
      assert m < k - 1 ==> segs[m].hi < segs[k - 1].lo;
      assert k < m ==> segs[k].hi < segs[m].lo;
    }
  }

  /** A segment holds the start of a run only at its first address, and exactly when
      it does not continue the previous segment. */
  lemma SegmentRun(segs: seq<Segment>, iv1: seq<Interval>, iv2: seq<Interval>, bound: int, k: nat, q: Query)
    requires SegmentsOf(segs, iv1, iv2, bound) && k < |segs|
    ensures Count(RunStarts(iv1, iv2, q), 0, Done(segs, k + 1))
         == Count(RunStarts(iv1, iv2, q), 0, Done(segs, k))
            + if NewRun(segs, k) && Matches(Moved(segs[k].t), q) then 1 else 0
  {
    hide ChangeAt, Count;
    var p := RunStarts(iv1, iv2, q);
    var from, lo, upTo := Done(segs, k), segs[k].lo, Done(segs, k + 1);
    assert k > 0 ==> segs[k - 1].hi < lo;
    CountSplit(p, 0, from, upTo);
    CountSplit(p, from, lo, upTo);
    CountSplit(p, lo, lo + 1, upTo);
    forall x | from <= x < lo ensures !p(x) {
      GapNotMoved(segs, iv1, iv2, bound, k, x);
    }
    CountNone(p, from, lo);
    forall x | lo + 1 <= x < upTo ensures !p(x) {
      assert ChangeAt(iv1, iv2, x) == Moved(segs[k].t) == ChangeAt(iv1, iv2, x - 1);
    }
    CountNone(p, lo + 1, upTo);
    assert ChangeAt(iv1, iv2, lo) == Moved(segs[k].t);
    if k > 0 && lo == segs[k - 1].hi + 1 {
      assert ChangeAt(iv1, iv2, lo - 1) == Moved(segs[k - 1].t);
    } else {
      GapNotMoved(segs, iv1, iv2, bound, k, lo - 1);
    }
    if p(lo) {
      CountAll(p, lo, lo + 1);
    } else {
      CountNone(p, lo, lo + 1);
    }
  }

  lemma AllRunsSeen(segs: seq<Segment>, iv1: seq<Interval>, iv2: seq<Interval>, q: Query, width: nat)
    requires SegmentsOf(segs, iv1, iv2, Pow2(width))
    ensures Runs(iv1, iv2, q, width) == Count(RunStarts(iv1, iv2, q), 0, Done(segs, |segs|))
  {
    var p, d := RunStarts(iv1, iv2, q), Done(segs, |segs|);
    CountSplit(p, 0, d, Pow2(width));
    forall x | d <= x < Pow2(width) ensures !p(x) {
      GapNotMoved(segs, iv1, iv2, Pow2(width), |segs|, x);
    }
    CountNone(p, d, Pow2(width));
  }

  lemma WidenSegments(segs: seq<Segment>, iv1: seq<Interval>, iv2: seq<Interval>, edges: seq<int>, bound: int, width: nat)
    requires InSpace(iv1, width) && InSpace(iv2, width) && EdgesOf(edges, iv1, iv2)
    requires SegmentsOf(segs, iv1, iv2, bound)
    requires if |edges| == 0 then bound == 0 else bound == edges[|edges| - 1]
    ensures SegmentsOf(segs, iv1, iv2, Pow2(width))
  {
    EdgesInSpace(iv1, iv2, edges, width);
    forall x | x < Pow2(width) && ChangeAt(iv1, iv2, x).Moved? ensures InSegment(segs, x) {
      if x >= bound {
        AbsentOutside(iv1, iv2, edges, x);
      }
    }
  }

  /** Counts the maximal runs in a list of relabelled segments. */
  method CountRuns(segs: seq<Segment>, ghost iv1: seq<Interval>, ghost iv2: seq<Interval>, ghost width: nat)
    returns (runs: nat)
    requires SegmentsOf(segs, iv1, iv2, Pow2(width))
    ensures runs == Runs(iv1, iv2, AnyMove, width)
  {
    runs := 0;
    var prevEnd: Option<int> := None;
    var prevTransition: Option<Transition> := None;
    CountNone(RunStarts(iv1, iv2, AnyMove), 0, 0);
    for k := 0 to |segs|
      invariant prevEnd == if k == 0 then None else Some(segs[k - 1].hi)
      invariant prevTransition == if k == 0 then None else Some(segs[k - 1].t)
      invariant runs == Count(RunStarts(iv1, iv2, AnyMove), 0, Done(segs, k))
    {
      if prevEnd.None? || segs[k].lo != prevEnd.value + 1 || Some(segs[k].t) != prevTransition {
        runs := runs + 1;
      }
      SegmentRun(segs, iv1, iv2, Pow2(width), k, AnyMove);
      prevEnd, prevTransition := Some(segs[k].hi), Some(segs[k].t);
    }
    AllRunsSeen(segs, iv1, iv2, AnyMove, width);
  }

  // ---------- The address half of the comparison ----------

  datatype AddressDiff = AddressDiff(addedAddrs: nat, removedAddrs: nat, reassignedAddrs: nat,
                                     reassignCount: nat, transitions: map<Transition, nat>)

  /** The transition counter agrees with the addresses below `bound`. */
  ghost predicate CountsTransitions(m: map<Transition, nat>, iv1: seq<Interval>, iv2: seq<Interval>, bound: int) {
    forall t :: Count(Changed(iv1, iv2, Exactly(Moved(t))), 0, bound) == if t in m then m[t] else 0
  }

  lemma StepTransitions(m: map<Transition, nat>, iv1: seq<Interval>, iv2: seq<Interval>, edges: seq<int>, i: nat)
    requires SortedDisjoint(iv1) && SortedDisjoint(iv2) && EdgesOf(edges, iv1, iv2)
    requires i + 1 < |edges| && 0 <= edges[i] && CountsTransitions(m, iv1, iv2, edges[i])
    ensures edges[i] < edges[i + 1]
    ensures var c := ChangeAt(iv1, iv2, edges[i]);
            var m' := if c.Moved? then m[c.t := (if c.t in m then m[c.t] else 0) + (edges[i + 1] - edges[i])] else m;
            CountsTransitions(m', iv1, iv2, edges[i + 1])
  {
    var c := ChangeAt(iv1, iv2, edges[i]);
    var m' := if c.Moved? then m[c.t := (if c.t in m then m[c.t] else 0) + (edges[i + 1] - edges[i])] else m;
    forall t ensures Count(Changed(iv1, iv2, Exactly(Moved(t))), 0, edges[i + 1]) == if t in m' then m'[t] else 0 {
      SegmentCount(iv1, iv2, edges, i, Exactly(Moved(t)));
    }
  }

  /** What a correct transition table holds: every transition that some address made,
      with its number of addresses. */
  ghost predicate TransitionTable(m: map<Transition, nat>, iv1: seq<Interval>, iv2: seq<Interval>, width: nat) {
    && (forall t :: t in m <==> Addresses(iv1, iv2, Exactly(Moved(t)), width) > 0)
    && (forall t :: t in m ==> m[t] == Addresses(iv1, iv2, Exactly(Moved(t)), width))
  }

  /** The lists and the counter built so far agree with the addresses below `bound`. */
  ghost predicate Tally(added: seq<Range>, removed: seq<Range>, segs: seq<Segment>, transitions: map<Transition, nat>,
                        iv1: seq<Interval>, iv2: seq<Interval>, bound: int) {
    && bound >= 0
    && SumSizes(added) == Count(Changed(iv1, iv2, Exactly(Added)), 0, bound)
    && SumSizes(removed) == Count(Changed(iv1, iv2, Exactly(Removed)), 0, bound)
    && SumSizes(Ranges(segs)) == Count(Changed(iv1, iv2, AnyMove), 0, bound)
    && SegmentsOf(segs, iv1, iv2, bound)
    && CountsTransitions(transitions, iv1, iv2, bound)
    && (forall t :: t in transitions ==> transitions[t] > 0)
  }

  lemma TallyStart(iv1: seq<Interval>, iv2: seq<Interval>, edges: seq<int>, width: nat)
    requires InSpace(iv1, width) && InSpace(iv2, width) && EdgesOf(edges, iv1, iv2)
    ensures Tally([], [], [], map[], iv1, iv2, if |edges| == 0 then 0 else edges[0])
  {
    var bound := if |edges| == 0 then 0 else edges[0];
    EdgesInSpace(iv1, iv2, edges, width);
    forall q | !Matches(Absent, q) ensures Count(Changed(iv1, iv2, q), 0, bound) == 0 {
      WholeSpace(iv1, iv2, edges, q, width);
      CountNone(Changed(iv1, iv2, q), 0, 0);
    }
    forall x | x < bound ensures ChangeAt(iv1, iv2, x) == Absent {
      AbsentOutside(iv1, iv2, edges, x);
    }
  }

  lemma TallyStep(added: seq<Range>, removed: seq<Range>, segs: seq<Segment>, transitions: map<Transition, nat>,
                  iv1: seq<Interval>, iv2: seq<Interval>, edges: seq<int>, i: nat)
    requires SortedDisjoint(iv1) && SortedDisjoint(iv2) && EdgesOf(edges, iv1, iv2) && i + 1 < |edges|
    requires Tally(added, removed, segs, transitions, iv1, iv2, edges[i])
    ensures edges[i] < edges[i + 1]
    ensures var c, r := ChangeAt(iv1, iv2, edges[i]), Range(edges[i], edges[i + 1] - 1);
            Tally(if c == Added then added + [r] else added,
                  if c == Removed then removed + [r] else removed,
                  if c.Moved? then segs + [Segment(r.lo, r.hi, c.t)] else segs,
                  if c.Moved? then transitions[c.t := (if c.t in transitions then transitions[c.t] else 0) + (edges[i + 1] - edges[i])]
                  else transitions,
                  iv1, iv2, edges[i + 1])
  {
    hide SegmentsOf, CountsTransitions, ChangeAt, EdgesOf, Count, SumSizes;
    var c, r := ChangeAt(iv1, iv2, edges[i]), Range(edges[i], edges[i + 1] - 1);
    SegmentCount(iv1, iv2, edges, i, Exactly(Added));
    SegmentCount(iv1, iv2, edges, i, Exactly(Removed));
    SegmentCount(iv1, iv2, edges, i, AnyMove);
    ExtendSegments(segs, iv1, iv2, edges, i);
    StepTransitions(transitions, iv1, iv2, edges, i);
    SumAppend(added, r);
    SumAppend(removed, r);
    if c.Moved? {
      RangesAppend(segs, Segment(r.lo, r.hi, c.t));
      SumAppend(Ranges(segs), r);
    }
  }

  lemma TallyEnd(added: seq<Range>, removed: seq<Range>, segs: seq<Segment>, transitions: map<Transition, nat>,
                 iv1: seq<Interval>, iv2: seq<Interval>, edges: seq<int>, bound: int, width: nat)
    requires InSpace(iv1, width) && InSpace(iv2, width) && EdgesOf(edges, iv1, iv2)
    requires Tally(added, removed, segs, transitions, iv1, iv2, bound)
    requires if |edges| == 0 then bound == 0 else bound == edges[|edges| - 1]
    ensures SumSizes(added) == Addresses(iv1, iv2, Exactly(Added), width)
    ensures SumSizes(removed) == Addresses(iv1, iv2, Exactly(Removed), width)
    ensures SumSizes(Ranges(segs)) == Addresses(iv1, iv2, AnyMove, width)
    ensures SegmentsOf(segs, iv1, iv2, Pow2(width))
    ensures TransitionTable(transitions, iv1, iv2, width)
  {
    forall q | !Matches(Absent, q) ensures Addresses(iv1, iv2, q, width) == Count(Changed(iv1, iv2, q), 0, bound) {
      WholeSpace(iv1, iv2, edges, q, width);
      CountNone(Changed(iv1, iv2, q), 0, 0);
    }
    WidenSegments(segs, iv1, iv2, edges, bound, width);
    forall t ensures Addresses(iv1, iv2, Exactly(Moved(t)), width) == if t in transitions then transitions[t] else 0 {
      assert !Matches(Absent, Exactly(Moved(t)));
    }
  }

  /** The sweep: every reported number is the cardinality of the matching address set. */
  method Diff(iv1: seq<Interval>, iv2: seq<Interval>, width: nat) returns (d: AddressDiff)
    requires InSpace(iv1, width) && InSpace(iv2, width)
    ensures d.addedAddrs == Addresses(iv1, iv2, Exactly(Added), width)
    ensures d.removedAddrs == Addresses(iv1, iv2, Exactly(Removed), width)
    ensures d.reassignedAddrs == Addresses(iv1, iv2, AnyMove, width)
    ensures d.reassignCount == Runs(iv1, iv2, AnyMove, width)
    ensures TransitionTable(d.transitions, iv1, iv2, width)
  {
    hide Tally, EdgesOf, SumSizes, TransitionTable, SegmentsOf;
    var edges := Boundaries(iv1, iv2);
    var added: seq<Range>, removed: seq<Range> := [], [];
    var segs: seq<Segment>, transitions: map<Transition, nat> := [], map[];
    TallyStart(iv1, iv2, edges, width);
    var i := 0;
    while i + 1 < |edges|
      invariant 0 <= i && (|edges| > 0 ==> i < |edges|)
      invariant Tally(added, removed, segs, transitions, iv1, iv2, if |edges| == 0 then 0 else edges[i])
    {
      var a, b := edges[i], edges[i + 1];
      TallyStep(added, removed, segs, transitions, iv1, iv2, edges, i);
      var l1 := Locate(iv1, a);
      var l2 := Locate(iv2, a);
      if l1.None? && l2.None? {
      } else if l1.None? {
        added := added + [Range(a, b - 1)];
      } else if l2.None? {
        removed := removed + [Range(a, b - 1)];
      } else if l1 != l2 {
        var t := Transition(l1.value, l2.value);
        segs := segs + [Segment(a, b - 1, t)];
        transitions := transitions[t := (if t in transitions then transitions[t] else 0) + (b - a)];
      }
      i := i + 1;
    }
    TallyEnd(added, removed, segs, transitions, iv1, iv2, edges, if |edges| == 0 then 0 else edges[i], width);
    var runs := CountRuns(segs, iv1, iv2, width);
    d := AddressDiff(SumSizes(added), SumSizes(removed), SumSizes(Ranges(segs)), runs, transitions);
  }

  /** The audit's own sweep: per transition, its number of runs and of addresses. */
  method TransitionCounts(iv1: seq<Interval>, iv2: seq<Interval>, width: nat)
    returns (runs: map<Transition, nat>, addresses: map<Transition, nat>)
    requires InSpace(iv1, width) && InSpace(iv2, width)
    ensures TransitionTable(addresses, iv1, iv2, width)
    ensures forall t :: Runs(iv1, iv2, Exactly(Moved(t)), width) == if t in runs then runs[t] else 0
    ensures runs.Keys == addresses.Keys
  {
    hide Tally, EdgesOf, SumSizes, SegmentsOf;
    var edges := Boundaries(iv1, iv2);
    var segs: seq<Segment> := [];
    addresses := map[];
    TallyStart(iv1, iv2, edges, width);
    ghost var added: seq<Range>, removed: seq<Range> := [], [];
    var i := 0;
    while i + 1 < |edges|
      invariant 0 <= i && (|edges| > 0 ==> i < |edges|)
      invariant Tally(added, removed, segs, addresses, iv1, iv2, if |edges| == 0 then 0 else edges[i])
    {
      var start, stop := edges[i], edges[i + 1];
      TallyStep(added, removed, segs, addresses, iv1, iv2, edges, i);
      var before := Locate(iv1, start);
      var after := Locate(iv2, start);
      if before.Some? && after.Some? && before != after {
        var t := Transition(before.value, after.value);
        segs := segs + [Segment(start, stop - 1, t)];
        addresses := addresses[t := (if t in addresses then addresses[t] else 0) + (stop - start)];
      }
      ghost var c := ChangeAt(iv1, iv2, start);
      added := if c == Added then added + [Range(start, stop - 1)] else added;
      removed := if c == Removed then removed + [Range(start, stop - 1)] else removed;
      i := i + 1;
    }
    TallyEnd(added, removed, segs, addresses, iv1, iv2, edges, if |edges| == 0 then 0 else edges[i], width);
    runs := CountRunsByTransition(segs, iv1, iv2, width);
    forall t ensures t in runs <==> t in addresses {
      RunIffAddress(iv1, iv2, t, width);
    }
  }

  /** A transition made by some address has a run that starts somewhere. */
  lemma RunIffAddress(iv1: seq<Interval>, iv2: seq<Interval>, t: Transition, width: nat)
    requires InSpace(iv1, width) && InSpace(iv2, width)
    ensures Runs(iv1, iv2, Exactly(Moved(t)), width) > 0 <==> Addresses(iv1, iv2, Exactly(Moved(t)), width) > 0
  {
    hide ChangeAt, InSpace;
    var q := Exactly(Moved(t));
    var starts := Where(RunStarts(iv1, iv2, q), 0, Pow2(width));
    var addresses := Where(Changed(iv1, iv2, q), 0, Pow2(width));
    SubsetSize(starts, addresses);
    if addresses != {} {
      var m := Least(addresses);
      assert m - 1 !in addresses;
      OutOfSpace(iv1, iv2, width, -1);
      assert m in starts;
    }
  }

  lemma OutOfSpace(iv1: seq<Interval>, iv2: seq<Interval>, width: nat, x: int)
    requires InSpace(iv1, width) && InSpace(iv2, width) && !(0 <= x < Pow2(width))
    ensures ChangeAt(iv1, iv2, x) == Absent
  {
    assert forall i :: 0 <= i < |iv1| ==> !iv1[i].Covers(x);
    assert forall i :: 0 <= i < |iv2| ==> !iv2[i].Covers(x);
  }

  method CountRunsByTransition(segs: seq<Segment>, ghost iv1: seq<Interval>, ghost iv2: seq<Interval>, ghost width: nat)
    returns (runs: map<Transition, nat>)
    requires SegmentsOf(segs, iv1, iv2, Pow2(width))
    ensures forall t :: Runs(iv1, iv2, Exactly(Moved(t)), width) == if t in runs then runs[t] else 0
    ensures forall t :: t in runs ==> runs[t] > 0
  {
    hide SegmentsOf, ChangeAt, RunStarts, Runs, Count;
    runs := map[];
    var prevEnd: Option<int> := None;
    var prevTransition: Option<Transition> := None;
    forall t ensures Count(RunStarts(iv1, iv2, Exactly(Moved(t))), 0, 0) == 0 {
      CountNone(RunStarts(iv1, iv2, Exactly(Moved(t))), 0, 0);
    }
    for k := 0 to |segs|
      invariant prevEnd == if k == 0 then None else Some(segs[k - 1].hi)
      invariant prevTransition == if k == 0 then None else Some(segs[k - 1].t)
      invariant forall t :: Count(RunStarts(iv1, iv2, Exactly(Moved(t))), 0, Done(segs, k)) == if t in runs then runs[t] else 0
      invariant forall t :: t in runs ==> runs[t] > 0
    {
      forall t {
        SegmentRun(segs, iv1, iv2, Pow2(width), k, Exactly(Moved(t)));
      }
      var start := if prevEnd.Some? then Some(prevEnd.value + 1) else None;
      if Some(segs[k].lo) != start || Some(segs[k].t) != prevTransition {
        runs := runs[segs[k].t := (if segs[k].t in runs then runs[segs[k].t] else 0) + 1];
      }
      prevEnd, prevTransition := Some(segs[k].hi), Some(segs[k].t);
    }
    forall t {
      AllRunsSeen(segs, iv1, iv2, Exactly(Moved(t)), width);
    }
  }
}
