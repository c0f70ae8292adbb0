/** Counting changed CIDR rows that only re-slice the same coverage: a two-pointer
    overlap walk, union-find, and one coverage comparison per component. */
module ResliceCount {
  import opened Blocks
  import opened Counting
  import opened UnionFind
  import opened Reslice

  ghost predicate SortedRows(rows: seq<Block>) {
    forall i, j :: 0 <= i < j < |rows| ==> rows[i].Last() < rows[j].base
  }

  lemma {:induction false} LeastRow(s: set<Block>) returns (m: Block)
    requires s != {}
    ensures m in s && forall b :: b in s ==> m.base <= b.base
  {
    m := AnyOf(s);
    if s != {m} {
      var n := LeastRow(s - {m});
      forall b | b in s ensures (if m.base < n.base then m else n).base <= b.base {
        assert b == m || b in s - {m};
      }
      m := if m.base < n.base then m else n;
    } else {
      assert forall b :: b in s ==> b == m;
    }
  }

  method SortRows(s: set<Block>) returns (rows: seq<Block>)
    requires DisjointSet(s)
    ensures SortedRows(rows)
    ensures forall b :: b in rows <==> b in s
  {
    rows := [];
    var rest := s;
    while rest != {}
      invariant rest <= s
      invariant forall b :: b in s <==> b in rows || b in rest
      invariant forall i, b :: 0 <= i < |rows| && b in rest ==> rows[i].Last() < b.base
      invariant SortedRows(rows)
      decreases rest
    {
      var least := LeastRow(rest);
      var m :| m in rest && forall b :: b in rest ==> m.base <= b.base;
      forall b | b in rest && b != m ensures m.Last() < b.base {
        assert !Overlaps(m, b);
      }
      rows := rows + [m];
      rest := rest - {m};
    }
  }

  // ---------- The two-pointer walk ----------

  ghost function OverlapPairs(old_: seq<Block>, new_: seq<Block>): set<(int, int)> {
    set p, q | 0 <= p < |old_| && 0 <= q < |new_| && Overlaps(old_[p], new_[q]) :: (p, q)
  }

  /** Roots only join nodes of one class. */
  ghost predicate Sound(root: seq<nat>, cls: seq<Block>) {
    |root| == |cls| && forall x, y :: 0 <= x < |root| && 0 <= y < |root| && root[x] == root[y] ==> cls[x] == cls[y]
  }

  ghost predicate Joined(root: seq<nat>, n: nat, pairs: set<(int, int)>) {
    forall pr :: pr in pairs ==> 0 <= pr.0 < n && 0 <= pr.1 && n + pr.1 < |root| && root[pr.0] == root[n + pr.1]
  }

  lemma UnionStep(root: seq<nat>, cls: seq<Block>, n: nat, pairs: set<(int, int)>, a: nat, b: nat)
    requires Sound(root, cls) && Joined(root, n, pairs)
    requires a < n && n + b < |root| && cls[a] == cls[n + b]
    ensures var root' := Relinked(root, root[a], root[n + b]);
            Sound(root', cls) && Joined(root', n, pairs + {(a, b)})
  {
    var root' := Relinked(root, root[a], root[n + b]);
    forall x, y | 0 <= x < |root| && 0 <= y < |root| && root'[x] == root'[y] ensures cls[x] == cls[y] {
      assert root[x] == root[n + b] ==> cls[x] == cls[n + b];
      assert root[y] == root[n + b] ==> cls[y] == cls[n + b];
      assert root[x] == root[a] ==> cls[x] == cls[a];
      assert root[y] == root[a] ==> cls[y] == cls[a];
    }
  }

  /** The pairs the walk has left behind once the pointers stand at i and j. */
  ghost function Passed(old_: seq<Block>, new_: seq<Block>, i: int, j: int): set<(int, int)> {
    set pr | pr in OverlapPairs(old_, new_) && (pr.0 < i || pr.1 < j)
  }

  lemma AdvanceOld(old_: seq<Block>, new_: seq<Block>, i: nat, j: nat)
    requires SortedRows(old_) && SortedRows(new_) && i < |old_| && j < |new_|
    requires old_[i].Last() <= new_[j].Last()
    ensures Passed(old_, new_, i + 1, j) == Passed(old_, new_, i, j) + (if Overlaps(old_[i], new_[j]) then {(i as int, j as int)} else {})
  {
    forall q | j < q < |new_| ensures !Overlaps(old_[i], new_[q]) {
    }
  }

  lemma AdvanceNew(old_: seq<Block>, new_: seq<Block>, i: nat, j: nat)
    requires SortedRows(old_) && SortedRows(new_) && i < |old_| && j < |new_|
    requires new_[j].Last() <= old_[i].Last()
    ensures Passed(old_, new_, i, j + 1) == Passed(old_, new_, i, j) + (if Overlaps(old_[i], new_[j]) then {(i as int, j as int)} else {})
  {
    forall p | i < p < |old_| ensures !Overlaps(old_[p], new_[j]) {
    }
  }

  lemma AdvanceBoth(old_: seq<Block>, new_: seq<Block>, i: nat, j: nat)
    requires SortedRows(old_) && SortedRows(new_) && i < |old_| && j < |new_|
    requires old_[i].Last() == new_[j].Last()
    ensures Passed(old_, new_, i + 1, j + 1) == Passed(old_, new_, i, j) + (if Overlaps(old_[i], new_[j]) then {(i as int, j as int)} else {})
  {
    forall q | j < q < |new_| ensures !Overlaps(old_[i], new_[q]) {
    }
    forall p | i < p < |old_| ensures !Overlaps(old_[p], new_[j]) {
    }
  }

  /** Visits every overlapping old/new pair and no other, and joins each in the forest. */
  method OverlapWalk(old_: seq<Block>, new_: seq<Block>, forest: Forest, ghost cls: seq<Block>)
    returns (ghost visited: set<(int, int)>)
    requires SortedRows(old_) && SortedRows(new_)
    requires forest.Valid() && forest.parent.Length == |old_| + |new_| == |cls|
    requires |forest.root| == |cls| && forall x :: 0 <= x < |cls| ==> forest.root[x] == x
    requires forall pr :: pr in OverlapPairs(old_, new_) ==> cls[pr.0] == cls[|old_| + pr.1]
    modifies forest, forest.parent
    ensures forest.Valid()
    ensures visited == OverlapPairs(old_, new_)
    ensures Sound(forest.root, cls) && Joined(forest.root, |old_|, visited)
  {
    hide IsForest, SortedRows, OverlapPairs, Passed, Sound, Joined;
    NothingJoined(forest.root, cls, |old_|);
    var i: nat, j: nat := 0, 0;
    visited := {};
    PassedEnds(old_, new_, 0, 0);
    while i < |old_| && j < |new_|
      invariant forest.Valid() && |forest.root| == forest.parent.Length
      invariant i <= |old_| && j <= |new_|
      invariant visited == Passed(old_, new_, i, j)
      invariant Sound(forest.root, cls) && Joined(forest.root, |old_|, visited)
    {
      var o, n := old_[i], new_[j];
      if o.Last() < n.base {
        AdvanceOld(old_, new_, i, j);
        i := i + 1;
        continue;
      }
      if n.Last() < o.base {
        AdvanceNew(old_, new_, i, j);
        j := j + 1;
        continue;
      }
      PairOverlaps(old_, new_, i, j);
      UnionStep(forest.root, cls, |old_|, visited, i, j);
      forest.Union(i, |old_| + j);
      visited := visited + {(i as int, j as int)};
      if o.Last() <= n.Last() && n.Last() <= o.Last() {
        AdvanceBoth(old_, new_, i, j);
      } else if o.Last() <= n.Last() {
        AdvanceOld(old_, new_, i, j);
      } else {
        AdvanceNew(old_, new_, i, j);
      }
      if o.Last() <= n.Last() {
        i := i + 1;
      }
      if n.Last() <= o.Last() {
        j := j + 1;
      }
    }
    PassedEnds(old_, new_, i, j);
  }

  lemma NothingJoined(root: seq<nat>, cls: seq<Block>, n: nat)
    requires |root| == |cls| && forall x :: 0 <= x < |cls| ==> root[x] == x
    ensures Sound(root, cls) && Joined(root, n, {})
  {
  }

  lemma PairOverlaps(old_: seq<Block>, new_: seq<Block>, i: nat, j: nat)
    requires i < |old_| && j < |new_| && Overlaps(old_[i], new_[j])
    ensures (i as int, j as int) in OverlapPairs(old_, new_)
  {
  }

  /** At the start nothing is passed, at the end every pair. */
  lemma PassedEnds(old_: seq<Block>, new_: seq<Block>, i: nat, j: nat)
    ensures Passed(old_, new_, 0, 0) == {}
    ensures i >= |old_| || j >= |new_| ==> Passed(old_, new_, i, j) == OverlapPairs(old_, new_)
  {
  }

  // ---------- Components and their coverage ----------

  datatype Member = Member(isOld: bool, net: Block)

  /** What the code has collected for one root after the first `n` nodes. */
  ghost predicate Collected(members: seq<Member>, r: nat, n: nat, nodes: seq<Block>, olds: nat, root: seq<nat>)
    requires n <= |nodes| == |root|
  {
    && (forall i, j :: 0 <= i < j < |members| ==> members[i].net != members[j].net)
    && (forall m :: m in members ==>
          exists x :: 0 <= x < n && root[x] == r && nodes[x] == m.net && m.isOld == (x < olds))
    && (forall x :: 0 <= x < n && root[x] == r ==> Member(x < olds, nodes[x]) in members)
  }

  ghost predicate Distinct(nodes: seq<Block>) {
    forall i, j :: 0 <= i < j < |nodes| ==> nodes[i] != nodes[j]
  }

  lemma CollectOne(members: seq<Member>, r: nat, n: nat, nodes: seq<Block>, olds: nat, root: seq<nat>)
    requires n < |nodes| == |root| && Distinct(nodes) && root[n] == r
    requires Collected(members, r, n, nodes, olds, root)
    ensures Collected(members + [Member(n < olds, nodes[n])], r, n + 1, nodes, olds, root)
  {
    var members' := members + [Member(n < olds, nodes[n])];
    forall i | 0 <= i < |members| ensures members[i].net != nodes[n] {
      assert members[i] in members;
    }
    forall m | m in members'
      ensures exists x :: 0 <= x < n + 1 && root[x] == r && nodes[x] == m.net && m.isOld == (x < olds)
    {
      if m in members {
        var x :| 0 <= x < n && root[x] == r && nodes[x] == m.net && m.isOld == (x < olds);
        assert 0 <= x < n + 1;
      } else {
        assert m == Member(n < olds, nodes[n]);
      }
    }
  }

  lemma CollectOther(members: seq<Member>, r: nat, n: nat, nodes: seq<Block>, olds: nat, root: seq<nat>)
    requires n < |nodes| == |root| && root[n] != r
    requires Collected(members, r, n, nodes, olds, root)
    ensures Collected(members, r, n + 1, nodes, olds, root)
  {
    forall m | m in members
      ensures exists x :: 0 <= x < n + 1 && root[x] == r && nodes[x] == m.net && m.isOld == (x < olds)
    {
      var x :| 0 <= x < n && root[x] == r && nodes[x] == m.net && m.isOld == (x < olds);
      assert 0 <= x < n + 1;
    }
  }

  method Components(nodes: seq<Block>, olds: nat, forest: Forest) returns (components: map<nat, seq<Member>>)
    requires Distinct(nodes) && forest.Valid() && |forest.root| == forest.parent.Length == |nodes|
    modifies forest.parent
    ensures forest.Valid()
    ensures forall r :: r in components <==> r in forest.root
    ensures forall r :: r in components ==> Collected(components[r], r, |nodes|, nodes, olds, forest.root)
  {
    hide IsForest, Collected, Distinct;
    components := map[];
    ghost var root := forest.root;
    for idx := 0 to |nodes|
      invariant forest.Valid() && forest.root == root
      invariant components.Keys == (set r | r in root[..idx])
      invariant forall r :: r in components ==> Collected(components[r], r, idx, nodes, olds, root)
    {
      var r := forest.Find(idx);
      assert root[..idx + 1] == root[..idx] + [r];
      if r !in components {
        CollectNone(r, idx, nodes, olds, root);
        components := components[r := []];
      }
      CollectOne(components[r], r, idx, nodes, olds, root);
      forall q | q in components && q != r ensures Collected(components[q], q, idx + 1, nodes, olds, root) {
        CollectOther(components[q], q, idx, nodes, olds, root);
      }
      components := components[r := components[r] + [Member(idx < olds, nodes[idx])]];
    }
    assert root[..|nodes|] == root;
  }

  lemma CollectNone(r: nat, n: nat, nodes: seq<Block>, olds: nat, root: seq<nat>)
    requires n <= |nodes| == |root| && r !in root[..n]
    ensures Collected([], r, n, nodes, olds, root)
  {
    forall x | 0 <= x < n ensures root[x] != r {
      assert root[x] in root[..n];
    }
  }

  function Nets(members: seq<Member>, old_: bool): set<Block> {
    set m | m in members && m.isOld == old_ :: m.net
  }

  function AllNets(members: seq<Member>): set<Block> {
    set m | m in members :: m.net
  }

  lemma {:induction false} DistinctSize(members: seq<Member>)
    requires forall i, j :: 0 <= i < j < |members| ==> members[i].net != members[j].net
    ensures |AllNets(members)| == |members|
  {
    if members != [] {
      var n := |members| - 1;
      DistinctSize(members[..n]);
      assert members == members[..n] + [members[n]];
      assert AllNets(members) == AllNets(members[..n]) + {members[n].net};
      assert members[n].net !in AllNets(members[..n]);
    }
  }

  /** The node list, its classes and the roots the walk has left agree. */
  ghost predicate Grouped(nodes: seq<Block>, olds: nat, root: seq<nat>, old_: set<Block>, new_: set<Block>) {
    && |root| == |nodes| && olds <= |nodes| && Distinct(nodes)
    && (forall b :: b in nodes <==> b in old_ + new_)
    && (forall x :: 0 <= x < |nodes| ==> (nodes[x] in old_ <==> x < olds))
    && (forall x, y :: 0 <= x < |nodes| && 0 <= y < |nodes| ==>
          (root[x] == root[y] <==> Top(old_, new_, nodes[x]) == Top(old_, new_, nodes[y])))
  }

  ghost function RowsUnder(nodes: seq<Block>, root: seq<nat>, r: nat): set<Block>
    requires |root| == |nodes|
  {
    set x | 0 <= x < |nodes| && root[x] == r :: nodes[x]
  }

  lemma CollectedRows(members: seq<Member>, r: nat, nodes: seq<Block>, olds: nat, root: seq<nat>)
    requires |root| == |nodes| && Collected(members, r, |nodes|, nodes, olds, root)
    ensures AllNets(members) == RowsUnder(nodes, root, r)
    ensures |members| == |RowsUnder(nodes, root, r)|
    ensures forall m :: m in members ==> exists x :: 0 <= x < |nodes| && nodes[x] == m.net && m.isOld == (x < olds)
  {
    forall b | b in RowsUnder(nodes, root, r) ensures b in AllNets(members) {
      var x :| 0 <= x < |nodes| && root[x] == r && nodes[x] == b;
      assert Member(x < olds, nodes[x]) in members;
    }
    DistinctSize(members);
  }

  lemma SplitNets(members: seq<Member>, old_: set<Block>, new_: set<Block>)
    requires forall m :: m in members ==> m.net in old_ + new_ && m.isOld == (m.net in old_)
    requires old_ !! new_
    ensures Nets(members, true) == AllNets(members) * old_
    ensures Nets(members, false) == AllNets(members) * new_
  {
    forall b | b in AllNets(members) ensures b in old_ ==> b in Nets(members, true) {
      var m :| m in members && m.net == b;
    }
    forall b | b in AllNets(members) ensures b in new_ ==> b in Nets(members, false) {
      var m :| m in members && m.net == b;
    }
  }

  /** The rows under one root are one overlap-connected component. */
  lemma RowsUnderIsComponent(r: nat, nodes: seq<Block>, olds: nat, root: seq<nat>,
                             old_: set<Block>, new_: set<Block>, width: nat) returns (t: Block)
    requires ChangedRows(old_, new_, width) && Grouped(nodes, olds, root, old_, new_)
    requires r in root
    ensures t in old_ + new_ && Top(old_, new_, t) == t
    ensures RowsUnder(nodes, root, r) == Component(old_, new_, t)
  {
    var k :| 0 <= k < |root| && root[k] == r;
    assert nodes[k] in nodes;
    t := Top(old_, new_, nodes[k]);
    TopIsTop(old_, new_, width, nodes[k]);
    forall b | b in Component(old_, new_, t) ensures b in RowsUnder(nodes, root, r) {
      assert b in nodes;
      var x :| 0 <= x < |nodes| && nodes[x] == b;
      assert root[x] == root[k];
    }
    forall b | b in RowsUnder(nodes, root, r) ensures b in Component(old_, new_, t) {
      var x :| 0 <= x < |nodes| && root[x] == r && nodes[x] == b;
      assert nodes[x] in nodes;
    }
  }

  /** The code's test on one component decides for each of its rows. */
  lemma ComponentTest(members: seq<Member>, r: nat, nodes: seq<Block>, olds: nat, root: seq<nat>,
                      old_: set<Block>, new_: set<Block>, width: nat)
    requires ChangedRows(old_, new_, width) && Grouped(nodes, olds, root, old_, new_)
    requires r in root && Collected(members, r, |nodes|, nodes, olds, root)
    ensures |members| == |RowsUnder(nodes, root, r)|
    ensures var o, n := Nets(members, true), Nets(members, false);
            forall b :: b in RowsUnder(nodes, root, r) ==>
              (Cosmetic(old_, new_, b) <==> o != {} && n != {} && Coverage(o) == Coverage(n))
  {
    var t := RowsUnderIsComponent(r, nodes, olds, root, old_, new_, width);
    CollectedRows(members, r, nodes, olds, root);
    forall m | m in members ensures m.net in old_ + new_ && m.isOld == (m.net in old_) {
      var x :| 0 <= x < |nodes| && nodes[x] == m.net && m.isOld == (x < olds);
      assert nodes[x] in nodes;
    }
    SplitNets(members, old_, new_);
    EqualCoverageIsCosmetic(old_, new_, width, t);
    assert forall b :: b in Component(old_, new_, t) ==> (Cosmetic(old_, new_, b) <==> Cosmetic(old_, new_, t));
  }

  ghost function CosmeticUnder(done: set<nat>, nodes: seq<Block>, root: seq<nat>, old_: set<Block>, new_: set<Block>): set<Block>
    requires |root| == |nodes|
  {
    set x | 0 <= x < |nodes| && root[x] in done && Cosmetic(old_, new_, nodes[x]) :: nodes[x]
  }

  /** Counting one more component adds all of its rows or none. */
  lemma CountComponent(done: set<nat>, r: nat, members: seq<Member>, nodes: seq<Block>, olds: nat, root: seq<nat>,
                       old_: set<Block>, new_: set<Block>, width: nat)
    requires ChangedRows(old_, new_, width) && Grouped(nodes, olds, root, old_, new_)
    requires |root| == |nodes| && r !in done && r in root && Collected(members, r, |nodes|, nodes, olds, root)
    ensures var o, n := Nets(members, true), Nets(members, false);
            |CosmeticUnder(done + {r}, nodes, root, old_, new_)|
            == |CosmeticUnder(done, nodes, root, old_, new_)|
               + if o != {} && n != {} && Coverage(o) == Coverage(n) then |members| else 0
  {
    hide Cosmetic, Coverage, Nets, Collected, ChangedRows, Grouped;
    assert Distinct(nodes) by { GroupedDistinct(nodes, olds, root, old_, new_); }
    ComponentTest(members, r, nodes, olds, root, old_, new_, width);
    var c := RowsUnder(nodes, root, r);
    var o, n := Nets(members, true), Nets(members, false);
    var before, after := CosmeticUnder(done, nodes, root, old_, new_), CosmeticUnder(done + {r}, nodes, root, old_, new_);
    if o != {} && n != {} && Coverage(o) == Coverage(n) {
      assert after == before + c;
      assert before !! c;
    } else {
      assert after == before;
    }
  }

  lemma GroupedDistinct(nodes: seq<Block>, olds: nat, root: seq<nat>, old_: set<Block>, new_: set<Block>)
    requires Grouped(nodes, olds, root, old_, new_)
    ensures Distinct(nodes) && |root| == |nodes|
  {
  }

  method CountResliced(components: map<nat, seq<Member>>, ghost nodes: seq<Block>, ghost olds: nat, ghost root: seq<nat>,
                       ghost old_: set<Block>, ghost new_: set<Block>, ghost width: nat) returns (resliced: nat)
    requires ChangedRows(old_, new_, width) && Grouped(nodes, olds, root, old_, new_)
    requires |root| == |nodes| && forall r :: r in components <==> r in root
    requires forall r :: r in components ==> Collected(components[r], r, |nodes|, nodes, olds, root)
    ensures resliced == |CosmeticRows(old_, new_)|
  {
    hide Cosmetic, Coverage, Nets, Collected, ChangedRows, Grouped;
    GroupedDistinct(nodes, olds, root, old_, new_);
    resliced := 0;
    var rest := components.Keys;
    ghost var done: set<nat> := {};
    assert CosmeticUnder(done, nodes, root, old_, new_) == {};
    while rest != {}
      invariant rest + done == components.Keys && rest !! done
      invariant resliced == |CosmeticUnder(done, nodes, root, old_, new_)|
      decreases rest
    {
      var r :| r in rest;
      CountComponent(done, r, components[r], nodes, olds, root, old_, new_, width);
      var oldMembers, newMembers := Nets(components[r], true), Nets(components[r], false);
      if oldMembers != {} && newMembers != {} && Coverage(oldMembers) == Coverage(newMembers) {
        resliced := resliced + |components[r]|;
      }
      rest, done := rest - {r}, done + {r};
    }
    AllCounted(done, nodes, olds, root, old_, new_);
  }

  lemma AllCounted(done: set<nat>, nodes: seq<Block>, olds: nat, root: seq<nat>, old_: set<Block>, new_: set<Block>)
    requires Grouped(nodes, olds, root, old_, new_) && forall r :: r in done <==> r in root
    ensures CosmeticUnder(done, nodes, root, old_, new_) == CosmeticRows(old_, new_)
  {
    hide Cosmetic;
    forall b | b in CosmeticRows(old_, new_) ensures b in CosmeticUnder(done, nodes, root, old_, new_) {
      assert b in nodes;
      var x :| 0 <= x < |nodes| && nodes[x] == b;
      assert root[x] in root;
    }
    forall b | b in CosmeticUnder(done, nodes, root, old_, new_) ensures b in CosmeticRows(old_, new_) {
      assert b in nodes;
    }
  }

  lemma RootsAreTops(nodes: seq<Block>, olds: nat, cls: seq<Block>, root: seq<nat>, old_: set<Block>, new_: set<Block>, width: nat)
    requires ChangedRows(old_, new_, width)
    requires olds <= |nodes| && Distinct(nodes) && |cls| == |nodes| && Sound(root, cls)
    requires forall b :: b in nodes <==> b in old_ + new_
    requires forall x :: 0 <= x < |nodes| ==> (nodes[x] in old_ <==> x < olds) && cls[x] == Top(old_, new_, nodes[x])
    requires Joined(root, olds, OverlapPairs(nodes[..olds], nodes[olds..]))
    ensures Grouped(nodes, olds, root, old_, new_)
  {
    forall x, y | 0 <= x < |nodes| && 0 <= y < |nodes| && cls[x] == cls[y] ensures root[x] == root[y] {
      var k := JoinedToTop(nodes, olds, root, old_, new_, width, x);
      var m := JoinedToTop(nodes, olds, root, old_, new_, width, y);
    }
  }

  lemma JoinedToTop(nodes: seq<Block>, olds: nat, root: seq<nat>, old_: set<Block>, new_: set<Block>, width: nat, x: nat)
    returns (k: nat)
    requires ChangedRows(old_, new_, width)
    requires olds <= |nodes| == |root| && Distinct(nodes)
    requires forall b :: b in nodes <==> b in old_ + new_
    requires forall i :: 0 <= i < |nodes| ==> (nodes[i] in old_ <==> i < olds)
    requires Joined(root, olds, OverlapPairs(nodes[..olds], nodes[olds..]))
    requires x < |nodes|
    ensures k < |nodes| && nodes[k] == Top(old_, new_, nodes[x]) && root[k] == root[x]
  {
    assert nodes[x] in nodes;
    LinkedToTop(old_, new_, width, nodes[x]);
    TopIsTop(old_, new_, width, nodes[x]);
    assert Top(old_, new_, nodes[x]) in nodes;
    k :| 0 <= k < |nodes| && nodes[k] == Top(old_, new_, nodes[x]);
    if k != x {
      var p, q := if x < olds then x else k, if x < olds then k else x;
      assert p < olds <= q;
      PairOverlaps(nodes[..olds], nodes[olds..], p, q - olds);
    }
  }

  /** The number of changed rows that are pure coverage-preserving re-slices. */
  method ReslicedPrefixCount(cidrs1: set<Block>, cidrs2: set<Block>, ghost width: nat) returns (resliced: nat)
    requires ChangedRows(cidrs1 - cidrs2, cidrs2 - cidrs1, width)
    ensures resliced == |CosmeticRows(cidrs1 - cidrs2, cidrs2 - cidrs1)|
  {
    ghost var oldSet, newSet := cidrs1 - cidrs2, cidrs2 - cidrs1;
    var olds := SortRows(cidrs1 - cidrs2);
    var news := SortRows(cidrs2 - cidrs1);
    if olds == [] || news == [] {
      OneSided(oldSet, newSet, width);
      return 0;
    }
    var nodes := olds + news;
    NodesDistinct(olds, news);
    ghost var cls := seq(|nodes|, x requires 0 <= x < |nodes| => Top(oldSet, newSet, nodes[x]));
    forall pr | pr in OverlapPairs(olds, news) ensures cls[pr.0] == cls[|olds| + pr.1] {
      OverlapSameTop(oldSet, newSet, width, olds[pr.0], news[pr.1]);
    }
    var forest := new Forest(|nodes|);
    var visited := OverlapWalk(olds, news, forest, cls);
    assert nodes[..|olds|] == olds && nodes[|olds|..] == news;
    RootsAreTops(nodes, |olds|, cls, forest.root, oldSet, newSet, width);
    var components := Components(nodes, |olds|, forest);
    resliced := CountResliced(components, nodes, |olds|, forest.root, oldSet, newSet, width);
  }

  lemma NodesDistinct(olds: seq<Block>, news: seq<Block>)
    requires SortedRows(olds) && SortedRows(news)
    requires forall b :: !(b in olds && b in news)
    ensures Distinct(olds + news)
  {
    forall i, j | 0 <= i < j < |olds + news| ensures (olds + news)[i] != (olds + news)[j] {
      if i < |olds| <= j {
        assert olds[i] in olds && news[j - |olds|] in news;
      }
    }
  }

  lemma OneSided(old_: set<Block>, new_: set<Block>, width: nat)
    requires ChangedRows(old_, new_, width) && (old_ == {} || new_ == {})
    ensures CosmeticRows(old_, new_) == {}
  {
    forall b | b in old_ + new_ ensures !Cosmetic(old_, new_, b) {
      TopIsTop(old_, new_, width, b);
      var t := Top(old_, new_, b);
      assert t.Has(t.base);
      assert Opposite(old_, new_, t) == {};
    }
  }
}
