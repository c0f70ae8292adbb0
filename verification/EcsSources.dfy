/** Expanding a routing table into the sorted scan input, and reading that input back. */
module EcsSources {
  import opened Wrappers
  import opened Blocks
  import opened Counting
  import opened EcsScan

  const SLASH24S := 0x100_0000

  /** The /24 numbered `index`. */
  function Slash24(index: nat): Block {
    Block(256 * index, 8)
  }

  /** A table row is expanded unless it is broader than a /8. */
  predicate Expanded(row: Block) {
    row.bits <= 24
  }

  ghost predicate Announced(rows: seq<Block>, index: nat) {
    exists r :: r in rows && Expanded(r) && Overlaps(Slash24(index), r)
  }

  lemma Pow2Of32()
    ensures Pow2(32) == 256 * SLASH24S
  {
    assert Pow2(8) == 256 by { Pow2Of8(); }
    Pow2Add(8, 8);
    Pow2Add(16, 16);
  }

  /** The /24s from the first to the last address of a row are those it shares addresses with. */
  lemma MarkedRange(row: Block, index: nat)
    requires row.Valid(32)
    ensures Overlaps(Slash24(index), row) <==> row.base / 256 <= index <= row.Last() / 256
  {
    Pow2Of8();
  }

  /** Marks every /24 an expanded row touches and lists the global ones in address order. */
  method BuildSources(rows: seq<Block>, isGlobal: int -> bool) returns (prefixes: seq<int>)
    requires forall i :: 0 <= i < |rows| ==> rows[i].Valid(32)
    ensures ScanInput(prefixes)
    ensures forall p :: p in prefixes <==>
              exists index: nat :: index < SLASH24S && p == 256 * index && isGlobal(p) && Announced(rows, index)
  {
    var marked := MarkTable(rows);
    prefixes := ListMarked(marked, isGlobal);
  }

  method MarkTable(rows: seq<Block>) returns (marked: array<bool>)
    requires forall i :: 0 <= i < |rows| ==> rows[i].Valid(32)
    ensures marked.Length == SLASH24S
    ensures forall k :: 0 <= k < SLASH24S ==> (marked[k] <==> Announced(rows, k))
  {
    marked := new bool[SLASH24S](_ => false);
    for i := 0 to |rows|
      invariant forall k :: 0 <= k < SLASH24S ==> (marked[k] <==> Announced(rows[..i], k))
    {
      if Expanded(rows[i]) {
        MarkRow(marked, rows[i]);
      }
      forall k | 0 <= k < SLASH24S {
        AnnouncedNext(rows, i, k);
      }
    }
    assert rows[..|rows|] == rows;
  }

  lemma AnnouncedNext(rows: seq<Block>, i: nat, k: nat)
    requires i < |rows|
    ensures Announced(rows[..i + 1], k) <==> Announced(rows[..i], k) || (Expanded(rows[i]) && Overlaps(Slash24(k), rows[i]))
  {
    assert rows[..i + 1] == rows[..i] + [rows[i]];
    assert rows[i] in rows[..i + 1];
  }

  method ListMarked(marked: array<bool>, isGlobal: int -> bool) returns (prefixes: seq<int>)
    requires marked.Length == SLASH24S
    ensures ScanInput(prefixes)
    ensures forall p :: p in prefixes <==>
              exists index: nat :: index < SLASH24S && p == 256 * index && isGlobal(p) && marked[index]
  {
    prefixes := [];
    for index := 0 to SLASH24S
      invariant Increasing(prefixes)
      invariant forall p :: p in prefixes <==>
                  exists k: nat :: k < index && p == 256 * k && isGlobal(p) && marked[k]
    {
      if marked[index] && isGlobal(256 * index) {
        assert forall i :: 0 <= i < |prefixes| ==> prefixes[i] in prefixes;
        prefixes := prefixes + [256 * index];
      }
    }
    forall i | 0 <= i < |prefixes| ensures 0 <= prefixes[i] && prefixes[i] % 256 == 0 {
      assert prefixes[i] in prefixes;
    }
  }

  method MarkRow(marked: array<bool>, row: Block)
    requires marked.Length == SLASH24S && row.Valid(32)
    modifies marked
    ensures forall k :: 0 <= k < SLASH24S ==> (marked[k] <==> old(marked[k]) || Overlaps(Slash24(k), row))
  {
    var first, last := row.base / 256, row.Last() / 256;
    Pow2Of32();
    for k := first to last + 1
      invariant forall m :: 0 <= m < SLASH24S ==> (marked[m] <==> old(marked[m]) || first <= m < k)
    {
      marked[k] := true;
    }
    forall k | 0 <= k < SLASH24S ensures marked[k] <==> old(marked[k]) || Overlaps(Slash24(k), row) {
      MarkedRange(row, k);
    }
  }

  /** Reads a scan input: every line a global /24, strictly increasing, or an error. */
  method IterPrefixes(lines: seq<Block>, isGlobal: int -> bool) returns (r: Result<seq<int>, string>)
    ensures r.Success? <==>
            && (forall i :: 0 <= i < |lines| ==> lines[i].bits == 8 && isGlobal(lines[i].base))
            && (forall i, j :: 0 <= i < j < |lines| ==> lines[i].base < lines[j].base)
    ensures r.Success? ==> |r.value| == |lines| && forall i :: 0 <= i < |lines| ==> r.value[i] == lines[i].base
  {
    var previous: int := -1;
    var prefixes: seq<int> := [];
    for i := 0 to |lines|
      invariant |prefixes| == i && forall k :: 0 <= k < i ==> prefixes[k] == lines[k].base
      invariant previous == if i == 0 then -1 else lines[i - 1].base
      invariant forall k :: 0 <= k < i ==> lines[k].bits == 8 && isGlobal(lines[k].base)
      invariant forall k, m :: 0 <= k < m < i ==> lines[k].base < lines[m].base
    {
      if lines[i].bits != 8 {
        return Failure("expected an IPv4 /24");
      }
      if !isGlobal(lines[i].base) {
        return Failure("not public IPv4 space");
      }
      if lines[i].base <= previous {
        return Failure("prefixes must be sorted and unique");
      }
      previous := lines[i].base;
      prefixes := prefixes + [lines[i].base];
    }
    r := Success(prefixes);
  }

  /** The scanner accepts every file the source builder writes, and reads back the same prefixes. */
  method BuildThenRead(rows: seq<Block>, isGlobal: int -> bool) returns (written: seq<int>, read: Result<seq<int>, string>)
    requires forall i :: 0 <= i < |rows| ==> rows[i].Valid(32)
    ensures read == Success(written) && ScanInput(written)
  {
    written := BuildSources(rows, isGlobal);
    forall i | 0 <= i < |written| ensures written[i] >= 0 && isGlobal(written[i]) {
      assert written[i] in written;
    }
    var lines := seq(|written|, i requires 0 <= i < |written| => Block(written[i], 8));
    read := IterPrefixes(lines, isGlobal);
    assert read.Success? && read.value == written;
  }
}
