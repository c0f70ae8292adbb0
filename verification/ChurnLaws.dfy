/** Laws of the reported numbers that relate several runs or several numbers. */
module ChurnLaws {
  import opened Wrappers
  import opened Blocks
  import opened Counting
  import opened Snapshot
  import opened Sweep
  import opened Reslice

  /** The numbers depend on the two address-to-label maps only, not on how rows are sliced. */
  lemma SliceIndependent(iv1: seq<Interval>, iv2: seq<Interval>, jv1: seq<Interval>, jv2: seq<Interval>, q: Query, width: nat)
    requires forall a :: LabelAt(iv1, a) == LabelAt(jv1, a)
    requires forall a :: LabelAt(iv2, a) == LabelAt(jv2, a)
    ensures Addresses(iv1, iv2, q, width) == Addresses(jv1, jv2, q, width)
    ensures Runs(iv1, iv2, q, width) == Runs(jv1, jv2, q, width)
  {
    assert forall a :: ChangeAt(iv1, iv2, a) == ChangeAt(jv1, jv2, a);
    CountAgree(Changed(iv1, iv2, q), Changed(jv1, jv2, q), 0, Pow2(width));
    CountAgree(RunStarts(iv1, iv2, q), RunStarts(jv1, jv2, q), 0, Pow2(width));
  }

  function Reversed(c: Change): Change {
    match c
    case Added => Removed
    case Removed => Added
    case Moved(t) => Moved(Transition(t.to, t.from))
    case _ => c
  }

  /** Swapping the snapshots swaps added with removed and turns every transition around. */
  lemma SwapReverses(iv1: seq<Interval>, iv2: seq<Interval>, c: Change, width: nat)
    ensures Addresses(iv2, iv1, Exactly(Reversed(c)), width) == Addresses(iv1, iv2, Exactly(c), width)
    ensures Runs(iv2, iv1, AnyMove, width) == Runs(iv1, iv2, AnyMove, width)
  {
    assert forall a :: ChangeAt(iv2, iv1, a) == Reversed(ChangeAt(iv1, iv2, a));
    assert forall x, y :: Reversed(x) == Reversed(y) ==> x == y;
    CountAgree(Changed(iv2, iv1, Exactly(Reversed(c))), Changed(iv1, iv2, Exactly(c)), 0, Pow2(width));
    CountAgree(RunStarts(iv2, iv1, AnyMove), RunStarts(iv1, iv2, AnyMove), 0, Pow2(width));
  }

  ghost function Labelled(iv: seq<Interval>): int -> bool {
    a => LabelAt(iv, a).Some?
  }

  /** Added minus removed addresses is the change in total coverage. */
  lemma CoverageConserved(iv1: seq<Interval>, iv2: seq<Interval>, width: nat)
    ensures Addresses(iv1, iv2, Exactly(Added), width) + Count(Labelled(iv1), 0, Pow2(width))
         == Addresses(iv1, iv2, Exactly(Removed), width) + Count(Labelled(iv2), 0, Pow2(width))
  {
    var n := Pow2(width);
    var both := a => LabelAt(iv1, a).Some? && LabelAt(iv2, a).Some?;
    CountEither(Labelled(iv1), Changed(iv1, iv2, Exactly(Removed)), both, 0, n);
    CountEither(Labelled(iv2), Changed(iv1, iv2, Exactly(Added)), both, 0, n);
  }

  // ---------- Transition tables add up ----------

  ghost function SumValues(m: map<Transition, nat>): nat {
    if m == map[] then 0
    else
      assert m.Keys != {};
      var t := AnyOf(m.Keys);
      m[t] + SumValues(m - {t})
  }

  type Keyed = int -> Option<Transition>

  ghost function Among(key: Keyed, ts: set<Transition>): int -> bool {
    a => key(a).Some? && key(a).value in ts
  }

  /** A table holding, per key, the addresses with that key adds up to all of them. */
  lemma {:induction false} TableSum(m: map<Transition, nat>, key: Keyed, n: nat)
    requires forall t :: t in m ==> m[t] == Count(Among(key, {t}), 0, n)
    ensures SumValues(m) == Count(Among(key, m.Keys), 0, n)
    decreases |m|
  {
    if m == map[] {
      CountNone(Among(key, m.Keys), 0, n);
    } else {
      assert m.Keys != {};
      var t := AnyOf(m.Keys);
      var rest := m - {t};
      assert |rest| < |m| by {
        assert rest.Keys == m.Keys - {t};
        assert |rest.Keys| == |m.Keys| - 1;
      }
      TableSum(rest, key, n);
      CountEither(Among(key, m.Keys), Among(key, {t}), Among(key, rest.Keys), 0, n);
    }
  }

  ghost function MoveOf(iv1: seq<Interval>, iv2: seq<Interval>): Keyed {
    a => match ChangeAt(iv1, iv2, a) { case Moved(t) => Some(t) case _ => None }
  }

  ghost function StartOf(iv1: seq<Interval>, iv2: seq<Interval>): Keyed {
    a => if RunStarts(iv1, iv2, AnyMove)(a) then MoveOf(iv1, iv2)(a) else None
  }

  lemma KeysSelect(iv1: seq<Interval>, iv2: seq<Interval>, t: Transition, n: nat)
    ensures Count(Among(MoveOf(iv1, iv2), {t}), 0, n) == Count(Changed(iv1, iv2, Exactly(Moved(t))), 0, n)
    ensures Count(Among(StartOf(iv1, iv2), {t}), 0, n) == Count(RunStarts(iv1, iv2, Exactly(Moved(t))), 0, n)
  {
    hide ChangeAt;
    forall a ensures Among(MoveOf(iv1, iv2), {t})(a) == Changed(iv1, iv2, Exactly(Moved(t)))(a) {
      var c := ChangeAt(iv1, iv2, a);
    }
    forall a ensures Among(StartOf(iv1, iv2), {t})(a) == RunStarts(iv1, iv2, Exactly(Moved(t)))(a) {
      var c, d := ChangeAt(iv1, iv2, a), ChangeAt(iv1, iv2, a - 1);
      assert RunStarts(iv1, iv2, AnyMove)(a) <==> c.Moved? && d != c;
      assert RunStarts(iv1, iv2, Exactly(Moved(t)))(a) <==> c == Moved(t) && d != c;
    }
    CountAgree(Among(MoveOf(iv1, iv2), {t}), Changed(iv1, iv2, Exactly(Moved(t))), 0, n);
    CountAgree(Among(StartOf(iv1, iv2), {t}), RunStarts(iv1, iv2, Exactly(Moved(t))), 0, n);
  }

  /** When the table knows every key that occurs, its sum counts every keyed address. */
  lemma TableTotal(m: map<Transition, nat>, key: Keyed, n: nat)
    requires forall t :: Count(Among(key, {t}), 0, n) == if t in m then m[t] else 0
    ensures SumValues(m) == Count(a => key(a).Some?, 0, n)
  {
    TableSum(m, key, n);
    forall a | 0 <= a < n && key(a).Some? ensures key(a).value in m {
      assert a in Where(Among(key, {key(a).value}), 0, n);
      assert Count(Among(key, {key(a).value}), 0, n) > 0;
    }
    CountAgree(Among(key, m.Keys), a => key(a).Some?, 0, n);
  }

  lemma AddressesAgree(addresses: map<Transition, nat>, iv1: seq<Interval>, iv2: seq<Interval>, width: nat)
    requires TransitionTable(addresses, iv1, iv2, width)
    ensures SumValues(addresses) == Addresses(iv1, iv2, AnyMove, width)
  {
    hide ChangeAt, Count;
    var n, key := Pow2(width), MoveOf(iv1, iv2);
    forall t ensures Count(Among(key, {t}), 0, n) == if t in addresses then addresses[t] else 0 {
      KeysSelect(iv1, iv2, t, n);
      assert t !in addresses ==> Addresses(iv1, iv2, Exactly(Moved(t)), width) == 0;
    }
    TableTotal(addresses, key, n);
    CountAgree(a => key(a).Some?, Changed(iv1, iv2, AnyMove), 0, n);
  }

  lemma RunsAgree(runs: map<Transition, nat>, iv1: seq<Interval>, iv2: seq<Interval>, width: nat)
    requires forall t :: Runs(iv1, iv2, Exactly(Moved(t)), width) == if t in runs then runs[t] else 0
    ensures SumValues(runs) == Runs(iv1, iv2, AnyMove, width)
  {
    hide ChangeAt, Count;
    var n, key := Pow2(width), StartOf(iv1, iv2);
    forall t ensures Count(Among(key, {t}), 0, n) == if t in runs then runs[t] else 0 {
      KeysSelect(iv1, iv2, t, n);
      assert Runs(iv1, iv2, Exactly(Moved(t)), width) == Count(Among(key, {t}), 0, n);
    }
    TableTotal(runs, key, n);
    CountAgree(a => key(a).Some?, RunStarts(iv1, iv2, AnyMove), 0, n);
  }

  /** The audit's run and address tables agree with the totals of the comparison. */
  lemma AuditAgrees(runs: map<Transition, nat>, addresses: map<Transition, nat>, iv1: seq<Interval>, iv2: seq<Interval>, width: nat)
    requires TransitionTable(addresses, iv1, iv2, width)
    requires forall t :: Runs(iv1, iv2, Exactly(Moved(t)), width) == if t in runs then runs[t] else 0
    ensures SumValues(runs) == Runs(iv1, iv2, AnyMove, width)
    ensures SumValues(addresses) == Addresses(iv1, iv2, AnyMove, width)
  {
    RunsAgree(runs, iv1, iv2, width);
    AddressesAgree(addresses, iv1, iv2, width);
  }

  /** Two correct transition tables are equal: the audit and the comparison agree. */
  lemma TransitionTableUnique(m: map<Transition, nat>, k: map<Transition, nat>, iv1: seq<Interval>, iv2: seq<Interval>, width: nat)
    requires TransitionTable(m, iv1, iv2, width) && TransitionTable(k, iv1, iv2, width)
    ensures m == k
  {
    assert m.Keys == k.Keys;
  }

  // ---------- A component is cosmetic when its sizes add up ----------

  ghost function TotalSize(s: set<Block>): nat {
    if s == {} then 0
    else
      var b := AnyOf(s);
      b.Size() + TotalSize(s - {b})
  }

  lemma {:induction false} DisjointSizesAdd(s: set<Block>)
    requires DisjointSet(s)
    ensures |Coverage(s)| == TotalSize(s)
  {
    hide Coverage, Pow2;
    if s == {} {
      assert Coverage(s) == {} by {
        forall a ensures a !in Coverage(s) {
          CoverageHas(s, a);
        }
      }
    } else {
      var b := AnyOf(s);
      DisjointSizesAdd(s - {b});
      CountAll(a => true, b.base, b.base + b.Size());
      OneBlockMore(s, b);
    }
  }

  lemma OneBlockMore(s: set<Block>, b: Block)
    requires DisjointSet(s) && b in s
    ensures var own := Where(a => true, b.base, b.base + b.Size());
            Coverage(s) == own + Coverage(s - {b}) && own !! Coverage(s - {b})
  {
    hide Coverage, Pow2;
    var own := Where(a => true, b.base, b.base + b.Size());
    forall a ensures a in Coverage(s) <==> a in own || a in Coverage(s - {b}) {
      CoverageHas(s, a);
      CoverageHas(s - {b}, a);
    }
    forall a | a in own ensures a !in Coverage(s - {b}) {
      CoverageHas(s - {b}, a);
    }
  }

  /** A component around an old row is cosmetic exactly when the new rows inside it have
      the same total size. */
  lemma CosmeticIffSizesAdd(old_: set<Block>, new_: set<Block>, width: nat, t: Block)
    requires ChangedRows(old_, new_, width) && t in old_ && Top(old_, new_, t) == t
    ensures Cosmetic(old_, new_, t) <==> TotalSize(set b | b in new_ && Inside(b, t)) == t.Size()
  {
    var inner := set b | b in new_ && Inside(b, t);
    ComponentShape(old_, new_, width, t);
    EqualCoverageIsTilingOld(old_, new_, width, t);
    DisjointSizesAdd(inner);
    DisjointSizesAdd({t});
    assert {t} - {AnyOf({t})} == {};
    assert TotalSize({t}) == t.Size();
    forall a | a in Coverage(inner) ensures a in Coverage({t}) {
      CoverageHas(inner, a);
      CoverageHas({t}, a);
    }
    SubsetSize(Coverage(inner), Coverage({t}));
  }
}
