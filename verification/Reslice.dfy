/** Changed CIDR rows and the simple definition of a cosmetic re-slice.
    `old` are the rows only the first snapshot has, `new` those only the second has. */
module Reslice {
  import opened Blocks

  ghost predicate DisjointSet(s: set<Block>) {
    forall a, b :: a in s && b in s && a != b ==> !Overlaps(a, b)
  }

  ghost predicate ValidSet(s: set<Block>, width: nat) {
    forall b :: b in s ==> b.Valid(width)
  }

  ghost predicate ChangedRows(old_: set<Block>, new_: set<Block>, width: nat) {
    && ValidSet(old_, width) && ValidSet(new_, width)
    && DisjointSet(old_) && DisjointSet(new_)
    && old_ !! new_
  }

  ghost function Opposite(old_: set<Block>, new_: set<Block>, b: Block): set<Block> {
    if b in old_ then new_ else old_
  }

  /** The largest changed row around `b`: an opposite row that contains it, or itself. */
  ghost function Top(old_: set<Block>, new_: set<Block>, b: Block): Block {
    if exists t :: t in Opposite(old_, new_, b) && Inside(b, t) then
      var t :| t in Opposite(old_, new_, b) && Inside(b, t);
      t
    else
      b
  }

  /** Every address of `t` is covered by some row of `s`. */
  ghost predicate Tiled(t: Block, s: set<Block>) {
    forall a :: t.Has(a) ==> exists b :: b in s && b.Has(a)
  }

  /** A changed row is cosmetic when the other snapshot covers all of its largest row. */
  ghost predicate Cosmetic(old_: set<Block>, new_: set<Block>, b: Block) {
    var t := Top(old_, new_, b);
    Tiled(t, Opposite(old_, new_, t))
  }

  ghost function CosmeticRows(old_: set<Block>, new_: set<Block>): set<Block> {
    set b | b in old_ + new_ && Cosmetic(old_, new_, b)
  }

  // ---------- Largest rows ----------

  lemma TopIsTop(old_: set<Block>, new_: set<Block>, width: nat, b: Block)
    requires ChangedRows(old_, new_, width) && b in old_ + new_
    ensures var t := Top(old_, new_, b);
            t in old_ + new_ && Inside(b, t) && Top(old_, new_, t) == t
  {
    var t := Top(old_, new_, b);
    if t != b {
      forall u | u in Opposite(old_, new_, t) ensures !Inside(t, u) {
        if Inside(t, u) {
          assert Overlaps(b, u);
          assert b == u;
          EndsDetermine(b, t);
          assert false;
        }
      }
    }
  }

  lemma OverlapSameTop(old_: set<Block>, new_: set<Block>, width: nat, o: Block, n: Block)
    requires ChangedRows(old_, new_, width) && o in old_ && n in new_ && Overlaps(o, n)
    ensures Top(old_, new_, o) == Top(old_, new_, n)
    ensures Inside(o, n) || Inside(n, o)
  {
    if o.bits <= n.bits {
      Nesting(o, n, width);
      TopIsTop(old_, new_, width, o);
    } else {
      Nesting(n, o, width);
      TopIsTop(old_, new_, width, n);
    }
  }

  // ---------- Connectivity ----------

  ghost predicate Linked(old_: set<Block>, new_: set<Block>, a: Block, b: Block) {
    && ((a in old_ && b in new_) || (a in new_ && b in old_))
    && Overlaps(a, b)
  }

  ghost predicate OverlapPath(old_: set<Block>, new_: set<Block>, path: seq<Block>) {
    && path != []
    && (forall i :: 0 <= i < |path| ==> path[i] in old_ + new_)
    && (forall i :: 0 <= i < |path| - 1 ==> Linked(old_, new_, path[i], path[i + 1]))
  }

  ghost predicate Connected(old_: set<Block>, new_: set<Block>, a: Block, b: Block) {
    exists path :: OverlapPath(old_, new_, path) && path[0] == a && path[|path| - 1] == b
  }

  lemma {:induction false} PathSameTop(old_: set<Block>, new_: set<Block>, width: nat, path: seq<Block>)
    requires ChangedRows(old_, new_, width) && OverlapPath(old_, new_, path)
    ensures Top(old_, new_, path[0]) == Top(old_, new_, path[|path| - 1])
  {
    if |path| > 1 {
      var rest := path[1..];
      assert forall i :: 0 <= i < |rest| ==> rest[i] == path[i + 1];
      PathSameTop(old_, new_, width, rest);
      assert Linked(old_, new_, path[0], path[1]);
      if path[0] in old_ {
        OverlapSameTop(old_, new_, width, path[0], path[1]);
      } else {
        OverlapSameTop(old_, new_, width, path[1], path[0]);
      }
    }
  }

  lemma LinkedToTop(old_: set<Block>, new_: set<Block>, width: nat, b: Block)
    requires ChangedRows(old_, new_, width) && b in old_ + new_
    ensures var t := Top(old_, new_, b); t == b || Linked(old_, new_, b, t)
  {
    TopIsTop(old_, new_, width, b);
  }

  /** The overlap-connected components are exactly the classes of one largest row:
      a mixed component is one containing block plus opposite blocks inside it. */
  lemma ComponentsAreTops(old_: set<Block>, new_: set<Block>, width: nat, a: Block, b: Block)
    requires ChangedRows(old_, new_, width) && a in old_ + new_ && b in old_ + new_
    ensures Connected(old_, new_, a, b) <==> Top(old_, new_, a) == Top(old_, new_, b)
  {
    if Connected(old_, new_, a, b) {
      var path :| OverlapPath(old_, new_, path) && path[0] == a && path[|path| - 1] == b;
      PathSameTop(old_, new_, width, path);
    }
    if Top(old_, new_, a) == Top(old_, new_, b) {
      var t := Top(old_, new_, a);
      LinkedToTop(old_, new_, width, a);
      LinkedToTop(old_, new_, width, b);
      TopIsTop(old_, new_, width, a);
      var path := (if a == t then [a] else [a, t]) + (if b == t then [] else [b]);
      assert OverlapPath(old_, new_, path) && path[0] == a && path[|path| - 1] == b;
    }
  }

  // ---------- One component: equal coverage is tiling of the largest row ----------

  ghost function Component(old_: set<Block>, new_: set<Block>, t: Block): set<Block> {
    set b | b in old_ + new_ && Top(old_, new_, b) == t
  }

  /** The addresses a set of rows denotes once collapsed. */
  function Coverage(s: set<Block>): set<int> {
    set b, a | b in s && b.base <= a <= b.Last() && b.Has(a) :: a
  }

  lemma CoverageHas(s: set<Block>, a: int)
    ensures a in Coverage(s) <==> exists b :: b in s && b.Has(a)
  {
    if b :| b in s && b.Has(a) {
      assert b.base <= a <= b.Last();
    }
  }

  lemma TopSwap(old_: set<Block>, new_: set<Block>, width: nat, b: Block)
    requires ChangedRows(old_, new_, width) && b in old_ + new_
    ensures Top(old_, new_, b) == Top(new_, old_, b)
  {
    assert Opposite(old_, new_, b) == Opposite(new_, old_, b);
  }

  /** In the component of an old largest row, the only old member is that row and the
      new members lie inside it. */
  lemma ComponentShape(old_: set<Block>, new_: set<Block>, width: nat, t: Block)
    requires ChangedRows(old_, new_, width) && t in old_ && Top(old_, new_, t) == t
    ensures Component(old_, new_, t) * old_ == {t}
    ensures Component(old_, new_, t) * new_ == set b | b in new_ && Inside(b, t)
  {
    forall b | b in Component(old_, new_, t) * old_ ensures b == t {
      TopIsTop(old_, new_, width, b);
      assert Overlaps(b, t);
    }
    forall b | b in new_ ensures Top(old_, new_, b) == t <==> Inside(b, t) {
      TopIsTop(old_, new_, width, b);
      if Inside(b, t) {
      }
    }
  }

  lemma EqualCoverageIsTilingOld(old_: set<Block>, new_: set<Block>, width: nat, t: Block)
    requires ChangedRows(old_, new_, width) && t in old_ && Top(old_, new_, t) == t
    ensures var c := Component(old_, new_, t);
            (Coverage(c * old_) == Coverage(c * new_) <==> Tiled(t, new_))
  {
    var c := Component(old_, new_, t);
    ComponentShape(old_, new_, width, t);
    forall a ensures a in Coverage(c * old_) <==> t.Has(a) {
      CoverageHas(c * old_, a);
    }
    forall a ensures a in Coverage(c * new_) <==> t.Has(a) && exists b :: b in new_ && b.Has(a) {
      CoverageHas(c * new_, a);
      if t.Has(a) {
        if b :| b in new_ && b.Has(a) {
          OverlapSameTop(old_, new_, width, t, b);
          if Inside(t, b) {
          }
          assert b in c * new_;
        }
      }
    }
    if Coverage(c * old_) == Coverage(c * new_) {
      forall a | t.Has(a) ensures exists b :: b in new_ && b.Has(a) {
        assert a in Coverage(c * old_);
      }
    }
    if Tiled(t, new_) {
      assert Coverage(c * old_) == Coverage(c * new_);
    }
  }

  /** The code's test on one component says whether its rows are cosmetic. */
  lemma EqualCoverageIsCosmetic(old_: set<Block>, new_: set<Block>, width: nat, t: Block)
    requires ChangedRows(old_, new_, width) && t in old_ + new_ && Top(old_, new_, t) == t
    ensures var c := Component(old_, new_, t);
            (c * old_ != {} && c * new_ != {} && Coverage(c * old_) == Coverage(c * new_))
            <==> Cosmetic(old_, new_, t)
  {
    var c := Component(old_, new_, t);
    CoverageHas(c * old_, t.base);
    CoverageHas(c * new_, t.base);
    assert t in c && t.Has(t.base);
    if t in old_ {
      EqualCoverageIsTilingOld(old_, new_, width, t);
    } else {
      forall b | b in old_ + new_ ensures Top(old_, new_, b) == Top(new_, old_, b) {
        TopSwap(old_, new_, width, b);
      }
      assert Component(new_, old_, t) == c;
      EqualCoverageIsTilingOld(new_, old_, width, t);
    }
  }
}
