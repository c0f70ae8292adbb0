/** One address family of a published catalogue: loading it into sorted disjoint
    intervals, and looking an address up by binary search. */
module Snapshot {
  import opened Wrappers
  import opened Blocks

  datatype Label = Label(country: string, region: string, city: string)

  datatype Row = Row(block: Block, loc: Label)

  datatype Interval = Interval(lo: int, hi: int, loc: Label) {
    predicate Covers(a: int) {
      lo <= a <= hi
    }
  }

  datatype Snapshot = Snapshot(intervals: seq<Interval>, cidrs: set<Block>)

  // ---------- The per-address meaning of a catalogue ----------

  /** The label the rows publish for an address, read row by row. */
  ghost function Published(rows: seq<Row>, a: int): Option<Label> {
    if exists i :: 0 <= i < |rows| && rows[i].block.Has(a) then
      var i :| 0 <= i < |rows| && rows[i].block.Has(a);
      Some(rows[i].loc)
    else
      None
  }

  /** The label a list of intervals gives an address. */
  ghost function LabelAt(iv: seq<Interval>, a: int): Option<Label> {
    if exists i :: 0 <= i < |iv| && iv[i].Covers(a) then
      var i :| 0 <= i < |iv| && iv[i].Covers(a);
      Some(iv[i].loc)
    else
      None
  }

  ghost predicate RowsDisjoint(rows: seq<Row>) {
    forall i, j :: 0 <= i < j < |rows| ==> !Overlaps(rows[i].block, rows[j].block)
  }

  ghost predicate RowsValid(rows: seq<Row>, width: nat) {
    forall i :: 0 <= i < |rows| ==> rows[i].block.Valid(width)
  }

  ghost predicate SortedDisjoint(iv: seq<Interval>) {
    && (forall i :: 0 <= i < |iv| ==> iv[i].lo <= iv[i].hi)
    && (forall i, j :: 0 <= i < j < |iv| ==> iv[i].hi < iv[j].lo)
  }

  /** What a successfully loaded snapshot guarantees about the rows it came from. */
  ghost predicate Loaded(s: Snapshot, rows: seq<Row>, width: nat) {
    && RowsValid(rows, width)
    && RowsDisjoint(rows)
    && SortedDisjoint(s.intervals)
    && (forall b :: b in s.cidrs <==> exists i :: 0 <= i < |rows| && rows[i].block == b)
    && (forall a :: LabelAt(s.intervals, a) == Published(rows, a))
  }

  // ---------- Sorting, and the adjacent-only overlap check ----------

  predicate Clash(x: Interval, y: Interval) {
    x.lo <= y.hi && y.lo <= x.hi
  }

  ghost predicate ClearOf(x: Interval, s: seq<Interval>) {
    forall y :: y in s ==> !Clash(x, y)
  }

  ghost predicate NoClash(s: seq<Interval>) {
    s != [] ==> ClearOf(s[0], s[1..]) && NoClash(s[1..])
  }

  ghost predicate Ordered(s: seq<Interval>) {
    forall i, j :: 0 <= i < j < |s| ==> s[i].lo <= s[j].lo
  }

  function Insert(x: Interval, s: seq<Interval>): (r: seq<Interval>)
    ensures multiset(r) == multiset(s) + multiset{x}
  {
    if s == [] then
      [x]
    else if x.lo < s[0].lo || (x.lo == s[0].lo && x.hi <= s[0].hi) then
      [x] + s
    else
      assert s == [s[0]] + s[1..];
      [s[0]] + Insert(x, s[1..])
  }

  /** The list sort of the loader: ascending by first, then last address. */
  function Sort(s: seq<Interval>): (r: seq<Interval>)
    ensures multiset(r) == multiset(s)
  {
    if s == [] then
      []
    else
      assert s == [s[0]] + s[1..];
      Insert(s[0], Sort(s[1..]))
  }

  lemma SameElements(r: seq<Interval>, s: seq<Interval>)
    requires multiset(r) == multiset(s)
    ensures forall y :: y in r <==> y in s
  {
    assert forall y :: y in r <==> y in multiset(r);
    assert forall y :: y in s <==> y in multiset(s);
  }

  lemma InsertElements(x: Interval, s: seq<Interval>)
    ensures forall y :: y in Insert(x, s) <==> y == x || y in s
  {
    SameElements(Insert(x, s), s + [x]);
  }

  lemma {:induction false} InsertOrdered(x: Interval, s: seq<Interval>)
    requires Ordered(s)
    ensures Ordered(Insert(x, s))
  {
    if s == [] {
    } else if x.lo < s[0].lo || (x.lo == s[0].lo && x.hi <= s[0].hi) {
      ConsOrdered(x, s);
    } else {
      var rest := Insert(x, s[1..]);
      InsertOrdered(x, s[1..]);
      InsertElements(x, s[1..]);
      ConsOrdered(s[0], rest);
    }
  }

  lemma ConsOrdered(x: Interval, s: seq<Interval>)
    requires Ordered(s) && forall y :: y in s ==> x.lo <= y.lo
    ensures Ordered([x] + s)
  {
    forall i, j | 0 <= i < j < |[x] + s| ensures ([x] + s)[i].lo <= ([x] + s)[j].lo {
      assert s[j - 1] in s;
    }
  }

  lemma {:induction false} InsertNoClash(x: Interval, s: seq<Interval>)
    ensures NoClash(Insert(x, s)) <==> ClearOf(x, s) && NoClash(s)
  {
    if s == [] {
    } else if x.lo < s[0].lo || (x.lo == s[0].lo && x.hi <= s[0].hi) {
      assert ([x] + s)[1..] == s;
    } else {
      var rest := Insert(x, s[1..]);
      InsertNoClash(x, s[1..]);
      InsertElements(x, s[1..]);
      assert Insert(x, s) == [s[0]] + rest;
      assert ([s[0]] + rest)[1..] == rest;
      assert forall y :: y in s <==> y == s[0] || y in s[1..];
      assert ClearOf(x, s) <==> !Clash(x, s[0]) && ClearOf(x, s[1..]);
      assert ClearOf(s[0], rest) <==> !Clash(s[0], x) && ClearOf(s[0], s[1..]);
    }
  }

  lemma {:induction false} SortOrderedNoClash(s: seq<Interval>)
    ensures Ordered(Sort(s))
    ensures NoClash(Sort(s)) <==> NoClash(s)
  {
    if s != [] {
      SortOrderedNoClash(s[1..]);
      InsertOrdered(s[0], Sort(s[1..]));
      InsertNoClash(s[0], Sort(s[1..]));
      SameElements(Sort(s[1..]), s[1..]);
    }
  }

  lemma {:induction false} NoClashPairs(s: seq<Interval>)
    ensures NoClash(s) <==> forall i, j :: 0 <= i < j < |s| ==> !Clash(s[i], s[j])
  {
    if s != [] {
      NoClashPairs(s[1..]);
      var rest := s[1..];
      assert forall j :: 0 < j < |s| ==> s[j] == rest[j - 1];
      if NoClash(s) {
        forall i, j | 0 <= i < j < |s| ensures !Clash(s[i], s[j]) {
          if i > 0 {
            assert !Clash(rest[i - 1], rest[j - 1]);
          } else {
            assert s[j] in rest;
          }
        }
      }
      if forall i, j :: 0 <= i < j < |s| ==> !Clash(s[i], s[j]) {
        forall y | y in rest ensures !Clash(s[0], y) {
          var k :| 0 <= k < |rest| && rest[k] == y;
          assert !Clash(s[0], s[k + 1]);
        }
        forall i, j | 0 <= i < j < |rest| ensures !Clash(rest[i], rest[j]) {
          assert !Clash(s[i + 1], s[j + 1]);
        }
      }
    }
  }

  function IntervalOf(row: Row): Interval {
    Interval(row.block.base, row.block.Last(), row.loc)
  }

  /** The defensive check: each interval against its predecessor only. */
  method NeighboursDisjoint(iv: seq<Interval>) returns (ok: bool)
    requires Ordered(iv) && forall k :: 0 <= k < |iv| ==> iv[k].lo <= iv[k].hi
    ensures ok <==> forall i, j :: 0 <= i < j < |iv| ==> !Clash(iv[i], iv[j])
    ensures ok ==> SortedDisjoint(iv)
  {
    var prevEnd: Option<int> := None;
    for i := 0 to |iv|
      invariant prevEnd == if i == 0 then None else Some(iv[i - 1].hi)
      invariant forall k, j :: 0 <= k < j < i ==> iv[k].hi < iv[j].lo
    {
      if prevEnd.Some? && iv[i].lo <= prevEnd.value {
        assert Clash(iv[i - 1], iv[i]);
        return false;
      }
      prevEnd := Some(iv[i].hi);
    }
    ok := true;
  }

  /** Loads the rows of one family; fails exactly when two rows overlap. */
  method Load(rows: seq<Row>, width: nat) returns (r: Result<Snapshot, string>)
    requires RowsValid(rows, width)
    ensures r.Success? <==> RowsDisjoint(rows)
    ensures r.Success? ==> Loaded(r.value, rows, width)
  {
    var intervals: seq<Interval>, cidrs: set<Block> := [], {};
    for i := 0 to |rows|
      invariant |intervals| == i
      invariant forall k :: 0 <= k < i ==> intervals[k] == IntervalOf(rows[k])
      invariant forall b :: b in cidrs <==> exists k :: 0 <= k < i && rows[k].block == b
    {
      intervals := intervals + [IntervalOf(rows[i])];
      cidrs := cidrs + {rows[i].block};
    }
    var sorted := Sort(intervals);
    SortedMeansDisjoint(rows, intervals);
    var ok := NeighboursDisjoint(sorted);
    if ok {
      forall a ensures LabelAt(sorted, a) == Published(rows, a) {
        SameLabels(rows, intervals, sorted, a);
      }
      r := Success(Snapshot(sorted, cidrs));
    } else {
      r := Failure("overlapping intervals");
    }
  }

  lemma SortedMeansDisjoint(rows: seq<Row>, unsorted: seq<Interval>)
    requires |unsorted| == |rows| && forall k :: 0 <= k < |rows| ==> unsorted[k] == IntervalOf(rows[k])
    ensures var s := Sort(unsorted);
            && Ordered(s)
            && (forall k :: 0 <= k < |s| ==> s[k].lo <= s[k].hi)
            && (forall y :: y in s <==> y in unsorted)
            && ((forall i, j :: 0 <= i < j < |s| ==> !Clash(s[i], s[j])) <==> RowsDisjoint(rows))
  {
    var s := Sort(unsorted);
    SortOrderedNoClash(unsorted);
    SameElements(s, unsorted);
    NoClashPairs(unsorted);
    NoClashPairs(s);
    assert forall i, j :: 0 <= i < j < |rows| ==>
        (Overlaps(rows[i].block, rows[j].block) <==> Clash(unsorted[i], unsorted[j]));
    forall k | 0 <= k < |s| ensures s[k].lo <= s[k].hi {
      assert s[k] in unsorted;
    }
  }

  lemma SameLabels(rows: seq<Row>, unsorted: seq<Interval>, sorted: seq<Interval>, a: int)
    requires RowsDisjoint(rows) && SortedDisjoint(sorted)
    requires |unsorted| == |rows| && forall k :: 0 <= k < |rows| ==> unsorted[k] == IntervalOf(rows[k])
    requires forall y :: y in sorted <==> y in unsorted
    ensures LabelAt(sorted, a) == Published(rows, a)
  {
    if i :| 0 <= i < |rows| && rows[i].block.Has(a) {
      var k :| 0 <= k < |rows| && rows[k].block.Has(a) && Published(rows, a) == Some(rows[k].loc);
      assert unsorted[k] in sorted;
      var m :| 0 <= m < |sorted| && sorted[m] == unsorted[k];
    } else {
      forall m | 0 <= m < |sorted| ensures !sorted[m].Covers(a) {
        assert sorted[m] in unsorted;
        var k :| 0 <= k < |unsorted| && unsorted[k] == sorted[m];
        assert !rows[k].block.Has(a);
      }
    }
  }

  // ---------- Binary search ----------

  /** The locator: the last interval starting at or before `addr`, found by
      bisection, decides the label. */
  method Locate(iv: seq<Interval>, addr: int) returns (loc: Option<Label>)
    requires SortedDisjoint(iv)
    ensures loc == LabelAt(iv, addr)
  {
    var lo, hi := 0, |iv|;
    while lo < hi
      invariant 0 <= lo <= hi <= |iv|
      invariant forall k :: 0 <= k < lo ==> iv[k].lo <= addr
      invariant forall k :: hi <= k < |iv| ==> addr < iv[k].lo
    {
      var mid := (lo + hi) / 2;
      if addr < iv[mid].lo {
        forall k | mid <= k < |iv| ensures addr < iv[k].lo {
          assert k > mid ==> iv[mid].hi < iv[k].lo;
        }
        hi := mid;
      } else {
        forall k | 0 <= k <= mid ensures iv[k].lo <= addr {
          assert k < mid ==> iv[k].hi < iv[mid].lo;
        }
        lo := mid + 1;
      }
    }
    var i := lo - 1;
    if i < 0 {
      return None;
    }
    if iv[i].Covers(addr) {
      return Some(iv[i].loc);
    }
    forall k | 0 <= k < |iv| ensures !iv[k].Covers(addr) {
      assert k < i ==> iv[k].hi < iv[i].lo;
    }
    loc := None;
  }
}
