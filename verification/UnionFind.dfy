/** The array union-find of the re-slice count: path halving, no ranks. */
module UnionFind {

  /** `root[x]` is the root of x's tree. `height` strictly grows along parent links up
      to `bound`: linking a root only ever raises a root, so halving a path keeps it. */
  ghost predicate IsForest(parent: seq<nat>, root: seq<nat>, height: seq<nat>, bound: nat) {
    && |parent| == |root| == |height|
    && (forall x :: 0 <= x < |parent| ==> parent[x] < |parent|)
    && (forall x :: 0 <= x < |parent| ==> root[x] < |parent| && parent[root[x]] == root[x])
    && (forall x :: 0 <= x < |parent| ==> height[x] <= bound)
    && (forall x :: 0 <= x < |parent| && parent[x] != x ==> height[x] < height[parent[x]])
    && (forall x :: 0 <= x < |parent| ==> root[parent[x]] == root[x])
    && (forall x :: 0 <= x < |parent| && parent[x] == x ==> root[x] == x)
  }

  lemma HalvingKeeps(parent: seq<nat>, root: seq<nat>, height: seq<nat>, bound: nat, x: nat)
    requires IsForest(parent, root, height, bound) && x < |parent| && parent[x] != x
    ensures IsForest(parent[x := parent[parent[x]]], root, height, bound)
    ensures height[x] < height[parent[parent[x]]] && root[parent[parent[x]]] == root[x]
  {
    var p := parent[x];
    var g := parent[p];
    assert height[x] < height[p] <= height[g];
    assert root[g] == root[p] == root[x];
    assert parent[root[x]] == root[x] && root[x] != x;
  }

  function Relinked(root: seq<nat>, ra: nat, rb: nat): (r: seq<nat>)
    ensures |r| == |root|
    ensures forall x :: 0 <= x < |root| ==> r[x] == if root[x] == rb then ra else root[x]
  {
    seq(|root|, x requires 0 <= x < |root| => if root[x] == rb then ra else root[x])
  }

  function Raised(height: seq<nat>, ra: nat, rb: nat): (h: seq<nat>)
    requires ra < |height| && rb < |height|
    ensures |h| == |height| && height[ra] <= h[ra] && height[rb] < h[ra]
    ensures h[ra] == height[ra] || h[ra] == height[rb] + 1
    ensures forall x :: 0 <= x < |height| && x != ra ==> h[x] == height[x]
  {
    height[ra := if height[ra] <= height[rb] then height[rb] + 1 else height[ra]]
  }

  lemma LinkingKeeps(parent: seq<nat>, root: seq<nat>, height: seq<nat>, bound: nat, ra: nat, rb: nat)
    requires IsForest(parent, root, height, bound) && ra < |parent| && rb < |parent| && ra != rb
    requires parent[ra] == ra && parent[rb] == rb
    ensures IsForest(parent[rb := ra], Relinked(root, ra, rb), Raised(height, ra, rb), bound + 1)
  {
    var parent', root', height' := parent[rb := ra], Relinked(root, ra, rb), Raised(height, ra, rb);
    assert root[ra] == ra && root[rb] == rb;
    forall x | 0 <= x < |parent| ensures root'[parent'[x]] == root'[x] {
      assert root[parent[x]] == root[x];
    }
    forall x | 0 <= x < |parent| ensures parent'[root'[x]] == root'[x] {
      assert parent[root[x]] == root[x];
    }
    forall x | 0 <= x < |parent| && parent'[x] != x ensures height'[x] < height'[parent'[x]] {
      if x != rb {
        assert height[x] < height[parent[x]];
      }
    }
  }

  class Forest {
    const parent: array<nat>
    ghost var root: seq<nat>
    ghost var height: seq<nat>
    ghost var bound: nat

    ghost predicate Valid()
      reads this, parent
    {
      IsForest(parent[..], root, height, bound)
    }

    constructor (n: nat)
      ensures Valid() && fresh(parent) && parent.Length == n
      ensures forall x :: 0 <= x < n ==> root[x] == x
    {
      parent := new nat[n](x => x);
      root := seq(n, x requires 0 <= x < n => x);
      height := seq(n, x requires 0 <= x < n => 0);
      bound := 0;
    }

    /** Follows and halves the path from `start`; which nodes share a root is unchanged. */
    method Find(start: nat) returns (r: nat)
      requires Valid() && start < parent.Length
      modifies parent
      ensures Valid() && |root| == |height| == parent.Length
      ensures r < parent.Length && r == root[start] && parent[r] == r
      ensures forall x :: 0 <= x < parent.Length && old(parent[x]) == x ==> parent[x] == x
    {
      var x: nat := start;
      while parent[x] != x
        invariant Valid()
        invariant x < parent.Length && root[x] == root[start]
        invariant forall y :: 0 <= y < parent.Length && old(parent[y]) == y ==> parent[y] == y
        invariant |root| == |height| == parent.Length
        decreases bound - height[x]
      {
        HalvingKeeps(parent[..], root, height, bound, x);
        ghost var halved := parent[..][x := parent[parent[x]]];
        parent[x] := parent[parent[x]];
        assert parent[..] == halved;
        x := parent[x];
      }
      r := x;
    }

    /** Merges the trees of `a` and `b` under the root of `a`, and no others. */
    method Union(a: nat, b: nat)
      requires Valid() && a < parent.Length && b < parent.Length
      modifies this, parent
      ensures Valid()
      ensures root == Relinked(old(root), old(root[a]), old(root[b]))
    {
      hide IsForest;
      var ra := Find(a);
      var rb := Find(b);
      if ra != rb {
        LinkingKeeps(parent[..], root, height, bound, ra, rb);
        ghost var linked := parent[..][rb := ra];
        parent[rb] := ra;
        assert parent[..] == linked;
        root, height, bound := Relinked(root, ra, rb), Raised(height, ra, rb), bound + 1;
      } else {
        assert root == Relinked(root, ra, rb);
      }
    }
  }
}
