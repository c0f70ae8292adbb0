/** The family-level comparison of two loaded snapshots, where the address sweep and
    the row count meet. */
module ChurnDiff {
  import opened Wrappers
  import opened Blocks
  import opened Counting
  import opened Snapshot
  import opened Sweep
  import opened Reslice
  import opened ResliceCount

  datatype FamilyDiff = FamilyDiff(addresses: AddressDiff, naiveRawChurn: nat, fakeChurn: nat)

  ghost predicate CoveredBy(s: set<Block>, a: int) {
    exists b :: b in s && b.Has(a)
  }

  lemma LoadedInSpace(s: Snapshot, rows: seq<Row>, width: nat)
    requires Loaded(s, rows, width)
    ensures InSpace(s.intervals, width)
    ensures ValidSet(s.cidrs, width) && DisjointSet(s.cidrs)
  {
    var iv := s.intervals;
    forall i | 0 <= i < |iv| ensures 0 <= iv[i].lo && iv[i].hi < Pow2(width) {
      assert Published(rows, iv[i].lo).Some? && Published(rows, iv[i].hi).Some?;
    }
    forall a, b | a in s.cidrs && b in s.cidrs && a != b ensures !Overlaps(a, b) {
      var i :| 0 <= i < |rows| && rows[i].block == a;
      var j :| 0 <= j < |rows| && rows[j].block == b;
    }
  }

  ghost predicate SameCoverage(c1: set<Block>, c2: set<Block>) {
    forall a :: CoveredBy(c1, a) <==> CoveredBy(c2, a)
  }

  /** A row that covers an address of a changed row in the other snapshot has itself changed. */
  lemma CounterpartChanged(c1: set<Block>, c2: set<Block>, t: Block, s: Block, a: int)
    requires DisjointSet(c1) && t in c1 && t !in c2 && s in c2 && t.Has(a) && s.Has(a)
    ensures s in c2 - c1
  {
    if s in c1 {
      assert Overlaps(s, t);
      assert false;
    }
  }

  lemma SameCoverageTiles(c1: set<Block>, c2: set<Block>, t: Block)
    requires DisjointSet(c1) && SameCoverage(c1, c2) && t in c1 - c2
    ensures Tiled(t, c2 - c1)
  {
    forall a | t.Has(a) ensures exists b :: b in c2 - c1 && b.Has(a) {
      assert CoveredBy(c1, a);
      var s :| s in c2 && s.Has(a);
      CounterpartChanged(c1, c2, t, s, a);
    }
  }

  lemma CosmeticCovers(c1: set<Block>, c2: set<Block>, width: nat, b: Block, a: int)
    requires ChangedRows(c1 - c2, c2 - c1, width) && b in c1 && b.Has(a)
    requires forall r :: r in (c1 - c2) + (c2 - c1) ==> Cosmetic(c1 - c2, c2 - c1, r)
    ensures CoveredBy(c2, a)
  {
    if b !in c2 {
      var t := Top(c1 - c2, c2 - c1, b);
      TopIsTop(c1 - c2, c2 - c1, width, b);
      assert t.Has(a);
      if t in c1 - c2 {
        var s :| s in c2 - c1 && s.Has(a);
      }
    }
  }

  /** Every changed row is cosmetic exactly when the two catalogues cover the same addresses. */
  lemma AllCosmeticIffSameCoverage(c1: set<Block>, c2: set<Block>, width: nat)
    requires ValidSet(c1, width) && ValidSet(c2, width) && DisjointSet(c1) && DisjointSet(c2)
    ensures var rows, cosmetic := (c1 - c2) + (c2 - c1), CosmeticRows(c1 - c2, c2 - c1);
            |cosmetic| <= |rows| && (|cosmetic| == |rows| <==> SameCoverage(c1, c2))
  {
    var o, n := c1 - c2, c2 - c1;
    var rows, cosmetic := o + n, CosmeticRows(o, n);
    SubsetSize(cosmetic, rows);
    if SameCoverage(c1, c2) {
      forall b | b in rows ensures b in cosmetic {
        TopIsTop(o, n, width, b);
        if Top(o, n, b) in o {
          SameCoverageTiles(c1, c2, Top(o, n, b));
        } else {
          SameCoverageTiles(c2, c1, Top(o, n, b));
        }
      }
      assert cosmetic == rows;
    }
    if |cosmetic| == |rows| {
      assert forall r :: r in rows ==> r in cosmetic;
      forall a ensures CoveredBy(c1, a) <==> CoveredBy(c2, a) {
        if CoveredBy(c1, a) {
          var b :| b in c1 && b.Has(a);
          CosmeticCovers(c1, c2, width, b, a);
        }
        if CoveredBy(c2, a) {
          var b :| b in c2 && b.Has(a);
          forall r | r in rows ensures Cosmetic(n, o, r) {
            TopIsTop(o, n, width, r);
            TopSwap(o, n, width, r);
            assert Opposite(o, n, Top(o, n, r)) == Opposite(n, o, Top(o, n, r));
          }
          CosmeticCovers(c2, c1, width, b, a);
        }
      }
    }
  }

  lemma NothingAddedOrRemoved(s1: Snapshot, rows1: seq<Row>, s2: Snapshot, rows2: seq<Row>, width: nat)
    requires Loaded(s1, rows1, width) && Loaded(s2, rows2, width)
    ensures SameCoverage(s1.cidrs, s2.cidrs) <==>
            Addresses(s1.intervals, s2.intervals, Exactly(Added), width) == 0
            && Addresses(s1.intervals, s2.intervals, Exactly(Removed), width) == 0
  {
    var iv1, iv2 := s1.intervals, s2.intervals;
    LoadedInSpace(s1, rows1, width);
    LoadedInSpace(s2, rows2, width);
    var added, removed := Where(Changed(iv1, iv2, Exactly(Added)), 0, Pow2(width)), Where(Changed(iv1, iv2, Exactly(Removed)), 0, Pow2(width));
    forall a ensures (CoveredBy(s1.cidrs, a) <==> CoveredBy(s2.cidrs, a)) <==> a !in added && a !in removed {
      if !(0 <= a < Pow2(width)) {
        OutOfSpace(iv1, iv2, width, a);
      }
    }
    if SameCoverage(s1.cidrs, s2.cidrs) {
      assert added == {} && removed == {};
    }
    if |added| == 0 && |removed| == 0 {
      forall a ensures CoveredBy(s1.cidrs, a) <==> CoveredBy(s2.cidrs, a) {
        assert a !in added && a !in removed;
      }
    }
  }

  /** The comparison of one family. Cosmetic churn never exceeds raw churn, and equals it
      exactly when no address was added or removed. */
  method DiffFamily(s1: Snapshot, s2: Snapshot, ghost rows1: seq<Row>, ghost rows2: seq<Row>, width: nat)
    returns (d: FamilyDiff)
    requires Loaded(s1, rows1, width) && Loaded(s2, rows2, width)
    ensures d.addresses.addedAddrs == Addresses(s1.intervals, s2.intervals, Exactly(Added), width)
    ensures d.addresses.removedAddrs == Addresses(s1.intervals, s2.intervals, Exactly(Removed), width)
    ensures d.addresses.reassignedAddrs == Addresses(s1.intervals, s2.intervals, AnyMove, width)
    ensures d.addresses.reassignCount == Runs(s1.intervals, s2.intervals, AnyMove, width)
    ensures TransitionTable(d.addresses.transitions, s1.intervals, s2.intervals, width)
    ensures d.naiveRawChurn == |(s1.cidrs - s2.cidrs) + (s2.cidrs - s1.cidrs)|
    ensures d.fakeChurn == |CosmeticRows(s1.cidrs - s2.cidrs, s2.cidrs - s1.cidrs)|
    ensures 0 <= d.fakeChurn <= d.naiveRawChurn
    ensures d.fakeChurn == d.naiveRawChurn <==> d.addresses.addedAddrs == 0 && d.addresses.removedAddrs == 0
  {
    hide Addresses, Runs, TransitionTable, Changed, Cosmetic, LabelAt;
    LoadedInSpace(s1, rows1, width);
    LoadedInSpace(s2, rows2, width);
    var addresses := Diff(s1.intervals, s2.intervals, width);
    var naive := |(s1.cidrs - s2.cidrs) + (s2.cidrs - s1.cidrs)|;
    var fake := ReslicedPrefixCount(s1.cidrs, s2.cidrs, width);
    AllCosmeticIffSameCoverage(s1.cidrs, s2.cidrs, width);
    NothingAddedOrRemoved(s1, rows1, s2, rows2, width);
    d := FamilyDiff(addresses, naive, fake);
  }
}
