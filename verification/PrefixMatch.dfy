/** Longest-prefix matching as the pipeline, the diagnostic pairing and the routing
    reconstruction each write it. */
module PrefixMatch {
  import opened Wrappers
  import opened Blocks
  import opened Counting
  import opened Snapshot

  /** An address of one of the two families. */
  datatype Address = Address(six: bool, value: int)

  /** A prefix of one of the two families. */
  datatype Net = Net(six: bool, block: Block) {

    function Bits(): nat {
      block.bits
    }

    predicate Has(a: Address) {
      six == a.six && block.Has(a.value)
    }

    predicate Valid() {
      block.Valid(if six then 128 else 32)
    }
  }

  /** A catalogue row; `net` is None when its prefix does not parse. */
  datatype FeedRow = FeedRow(net: Option<Net>, place: Label)

  predicate Contains(row: FeedRow, a: Address) {
    row.net.Some? && row.net.value.Has(a)
  }

  ghost predicate ValidRows(rows: seq<FeedRow>) {
    forall r :: r in rows && r.net.Some? ==> r.net.value.Valid()
  }

  /** Two prefixes of one length around one address are equal. */
  lemma SameNet(m: Net, n: Net, a: Address)
    requires m.Valid() && n.Valid() && m.Has(a) && n.Has(a) && m.Bits() == n.Bits()
    ensures m == n
  {
    SameLengthEqual(m.block, n.block, if m.six then 128 else 32);
  }

  /** No row that contains the address is more specific. */
  ghost predicate Longest(rows: seq<FeedRow>, a: Address, row: FeedRow) {
    && row in rows && Contains(row, a)
    && forall r :: r in rows && Contains(r, a) ==> row.net.value.Bits() <= r.net.value.Bits()
  }

  // ---------- Accepting a feed ----------

  /** Every prefix parses, and equal prefixes have equal locations. */
  ghost predicate Consistent(rows: seq<FeedRow>) {
    && (forall r :: r in rows ==> r.net.Some?)
    && (forall r, s :: r in rows && s in rows && r.net == s.net ==> r.place == s.place)
  }

  method AcceptFeed(rows: seq<FeedRow>) returns (ok: bool)
    ensures ok <==> Consistent(rows)
  {
    var seen: map<Net, Label> := map[];
    for i := 0 to |rows|
      invariant forall r :: r in rows[..i] ==> r.net.Some? && r.net.value in seen && seen[r.net.value] == r.place
      invariant forall b :: b in seen ==> FeedRow(Some(b), seen[b]) in rows[..i]
    {
      assert rows[..i + 1] == rows[..i] + [rows[i]];
      assert rows[i] in rows;
      if rows[i].net.None? {
        return false;
      }
      var b := rows[i].net.value;
      if b in seen && seen[b] != rows[i].place {
        assert FeedRow(Some(b), seen[b]) in rows;
        return false;
      }
      seen := seen[b := rows[i].place];
    }
    assert rows[..|rows|] == rows;
    ok := true;
  }

  // ---------- Two matchers ----------

  /** What the running-best matcher answers. */
  ghost predicate RunningBest(rows: seq<FeedRow>, a: Address, best: Option<FeedRow>) {
    && (best.None? <==> forall r :: r in rows ==> !Contains(r, a))
    && (best.Some? ==> Longest(rows, a, best.value))
  }

  /** What the collecting matcher answers: the longest row if there is only one. */
  ghost predicate OnlyLongest(rows: seq<FeedRow>, a: Address, result: Option<FeedRow>) {
    && (result.Some? <==> exists r :: Longest(rows, a, r) && forall s :: Longest(rows, a, s) ==> s == r)
    && (result.Some? ==> Longest(rows, a, result.value))
  }

  /** Every matching row before it is less specific. */
  ghost predicate FirstOfItsLength(rows: seq<FeedRow>, a: Address, row: FeedRow) {
    exists i :: 0 <= i < |rows| && rows[i] == row && Contains(rows[i], a)
                && forall j :: 0 <= j < i && Contains(rows[j], a) ==> rows[i].net.value.Bits() < rows[j].net.value.Bits()
  }

  /** Keeps the first row of the greatest prefix length seen so far. */
  method LongestPrefixMatch(a: Address, rows: seq<FeedRow>) returns (best: Option<FeedRow>)
    ensures RunningBest(rows, a, best)
    ensures best.Some? ==> FirstOfItsLength(rows, a, best.value)
  {
    best := None;
    for i := 0 to |rows|
      invariant RunningBest(rows[..i], a, best)
      invariant best.Some? ==> FirstOfItsLength(rows[..i], a, best.value)
    {
      assert rows[..i + 1] == rows[..i] + [rows[i]];
      assert rows[i] in rows[..i + 1];
      if best.Some? {
        StillFirst(rows[..i], rows[i], a, best.value);
      }
      assert forall j :: 0 <= j < i ==> rows[j] in rows[..i];
      if Contains(rows[i], a) && (best.None? || rows[i].net.value.Bits() < best.value.net.value.Bits()) {
        best := Some(rows[i]);
        assert rows[..i + 1][i] == rows[i];
      }
    }
    assert rows[..|rows|] == rows;
  }

  lemma StillFirst(rows: seq<FeedRow>, next: FeedRow, a: Address, row: FeedRow)
    requires FirstOfItsLength(rows, a, row)
    ensures FirstOfItsLength(rows + [next], a, row)
  {
    var i :| 0 <= i < |rows| && rows[i] == row && Contains(rows[i], a)
             && forall j :: 0 <= j < i && Contains(rows[j], a) ==> rows[i].net.value.Bits() < rows[j].net.value.Bits();
    assert (rows + [next])[i] == row;
  }

  method LeastHostBits(matches: seq<FeedRow>) returns (least: nat)
    requires matches != [] && forall r :: r in matches ==> r.net.Some?
    ensures exists r :: r in matches && r.net.value.Bits() == least
    ensures forall r :: r in matches ==> least <= r.net.value.Bits()
  {
    assert forall k :: 0 <= k < |matches| ==> matches[k] in matches;
    least := matches[0].net.value.Bits();
    for i := 0 to |matches|
      invariant exists r :: r in matches && r.net.value.Bits() == least
      invariant forall k :: 0 <= k < i ==> least <= matches[k].net.value.Bits()
    {
      if matches[i].net.value.Bits() < least {
        least := matches[i].net.value.Bits();
      }
    }
  }

  /** Collects every match, then demands one normalized row among the longest. */
  method CatalogueMatch(ipv4: int, rows: seq<FeedRow>) returns (result: Option<FeedRow>)
    ensures OnlyLongest(rows, Address(false, ipv4), result)
  {
    var a := Address(false, ipv4);
    var matches: seq<FeedRow> := [];
    for i := 0 to |rows|
      invariant forall r :: r in matches <==> r in rows[..i] && Contains(r, a)
    {
      assert rows[..i + 1] == rows[..i] + [rows[i]];
      if Contains(rows[i], a) {
        matches := matches + [rows[i]];
      }
    }
    assert rows[..|rows|] == rows;
    if matches == [] {
      return None;
    }
    var least := LeastHostBits(matches);
    var normalized := set r | r in matches && r.net.value.Bits() == least;
    assert forall r :: r in normalized <==> Longest(rows, a, r);
    if |normalized| != 1 {
      forall r | r in normalized ensures exists s :: s in normalized && s != r {
        NotSingleton(normalized, r);
        var s := AnyOf(normalized - {r});
      }
      return None;
    }
    var r :| r in normalized;
    assert normalized == {r} by {
      assert |normalized - {r}| == 0;
    }
    result := Some(r);
  }

  // ---------- Independence of order, and agreement ----------

  /** Prefixes around one address form a chain, so on an accepted feed the longest match is
      one row, whatever the order and repetition of rows. */
  lemma LongestUnique(rows: seq<FeedRow>, others: seq<FeedRow>, a: Address, r: FeedRow, s: FeedRow)
    requires ValidRows(rows) && Consistent(rows)
    requires forall x :: x in rows <==> x in others
    requires Longest(rows, a, r) && Longest(others, a, s)
    ensures r == s
  {
    SameNet(r.net.value, s.net.value, a);
  }

  /** On an accepted feed the running-best matcher over any ordering of the rows and the
      collecting matcher give the same answer for every address. */
  lemma MatchersAgree(rows: seq<FeedRow>, reordered: seq<FeedRow>, a: Address, one: Option<FeedRow>, two: Option<FeedRow>)
    requires ValidRows(rows) && Consistent(rows)
    requires forall x :: x in rows <==> x in reordered
    requires RunningBest(reordered, a, one) && OnlyLongest(rows, a, two)
    ensures one == two
  {
    hide Longest, ValidRows, Consistent, Contains;
    if one.Some? {
      LongestPermuted(rows, reordered, a, one.value);
      forall s | Longest(rows, a, s) ensures s == one.value {
        LongestUnique(rows, reordered, a, s, one.value);
      }
    } else if two.Some? {
      LongestContains(rows, a, two.value);
    }
  }

  lemma LongestPermuted(rows: seq<FeedRow>, reordered: seq<FeedRow>, a: Address, r: FeedRow)
    requires forall x :: x in rows <==> x in reordered
    requires Longest(reordered, a, r)
    ensures Longest(rows, a, r)
  {
  }

  lemma LongestContains(rows: seq<FeedRow>, a: Address, r: FeedRow)
    requires Longest(rows, a, r)
    ensures r in rows && Contains(r, a)
  {
  }

  // ---------- Routing reconstruction ----------

  /** `path` is None when the evidence carries no list; its hops are kept as text. */
  datatype Route = Route(net: Net, path: Option<seq<string>>)

  datatype RouteError = NoRoute | MultipleMostSpecific | InvalidPath | NonScalarOrigin | MultipleOrigins

  predicate IsDigits(text: string) {
    text != [] && forall c :: c in text ==> '0' <= c <= '9'
  }

  function Value(digits: string): nat
    requires forall c :: c in digits ==> '0' <= c <= '9'
  {
    if digits == [] then 0
    else
      var n := |digits| - 1;
      assert digits[n] in digits && forall c :: c in digits[..n] ==> c in digits;
      10 * Value(digits[..n]) + (digits[n] as int - '0' as int)
  }

  function Digit(n: nat): char
    requires n < 10
  {
    '0' + n as char
  }

  function Decimal(n: nat): string {
    if n < 10 then [Digit(n)] else Decimal(n / 10) + [Digit(n % 10)]
  }

  /** The value of a number's decimal text is the number. */
  lemma {:induction false} DecimalValue(n: nat)
    ensures IsDigits(Decimal(n)) && Value(Decimal(n)) == n
  {
    if n >= 10 {
      DecimalValue(n / 10);
      var text := Decimal(n);
      assert text[..|text| - 1] == Decimal(n / 10);
    } else {
      assert Value([Digit(n)][..0]) == 0;
    }
  }

  predicate EndsWith(r: Route, hop: string) {
    r.path.Some? && r.path.value != [] && r.path.value[|r.path.value| - 1] == hop
  }

  /** The text of one autonomous system number. */
  predicate IsAsNumber(text: string) {
    IsDigits(text) && 1 <= Value(text) < 0x1_0000_0000
  }

  /** The last hop, if it is the text of one number in range. */
  function OriginOf(r: Route): (origin: Result<string, RouteError>)
    ensures forall o :: origin == Success(o) <==> EndsWith(r, o) && IsAsNumber(o)
    ensures origin == Failure(InvalidPath) <==> forall hop :: !EndsWith(r, hop)
    ensures origin.Failure? ==> origin.error == InvalidPath || origin.error == NonScalarOrigin
  {
    if r.path.None? || r.path.value == [] then Failure(InvalidPath)
    else
      var origin := r.path.value[|r.path.value| - 1];
      assert EndsWith(r, origin);
      if IsDigits(origin) && 1 <= Value(origin) <= 4_294_967_295 then Success(origin) else Failure(NonScalarOrigin)
  }

  /** All these routes end with the same autonomous system number. */
  ghost predicate ShareOrigin(routes: seq<Route>, net: Net, origin: string) {
    IsAsNumber(origin) && forall x :: x in routes && x.net == net ==> EndsWith(x, origin)
  }

  ghost predicate MostSpecific(routes: seq<Route>, a: Address, net: Net) {
    && net.Has(a) && (exists r :: r in routes && r.net == net)
    && forall r :: r in routes && r.net.Has(a) ==> net.Bits() <= r.net.Bits()
  }

  ghost predicate ValidRoutes(routes: seq<Route>) {
    forall r :: r in routes ==> r.net.Valid()
  }

  lemma MostSpecificUnique(routes: seq<Route>, a: Address, m: Net, n: Net)
    requires ValidRoutes(routes) && MostSpecific(routes, a, m) && MostSpecific(routes, a, n)
    ensures m == n
  {
    SameNet(m, n, a);
  }

  /** Gathers the routes that contain the address under their prefixes. */
  method GroupByPrefix(routes: seq<Route>, a: Address) returns (byPrefix: map<Net, seq<Route>>)
    ensures forall b :: b in byPrefix <==> b.Has(a) && exists x :: x in routes && x.net == b
    ensures forall b, x :: b in byPrefix ==> (x in byPrefix[b] <==> x in routes && x.net == b)
  {
    byPrefix := map[];
    for i := 0 to |routes|
      invariant forall b :: b in byPrefix <==> b.Has(a) && exists x :: x in routes[..i] && x.net == b
      invariant forall b, x :: b in byPrefix ==> (x in byPrefix[b] <==> x in routes[..i] && x.net == b)
    {
      assert routes[..i + 1] == routes[..i] + [routes[i]];
      var b := routes[i].net;
      if b.Has(a) {
        byPrefix := byPrefix[b := (if b in byPrefix then byPrefix[b] else []) + [routes[i]]];
      }
    }
    assert routes[..|routes|] == routes;
  }

  ghost function Elements(routes: seq<Route>): set<Route> {
    set x | x in routes
  }

  ghost function RoutesAt(routes: seq<Route>, net: Net): set<Route> {
    set x | x in routes && x.net == net
  }

  /** Why no origin was found: a route without hops, one whose last hop is no number, or two
      routes that end differently. */
  ghost predicate Fails(routes: set<Route>, error: RouteError) {
    match error
    case InvalidPath => exists x :: x in routes && forall hop :: !EndsWith(x, hop)
    case NonScalarOrigin => exists x, hop :: x in routes && EndsWith(x, hop) && !IsAsNumber(hop)
    case MultipleOrigins =>
      && (forall x :: x in routes ==> exists hop :: EndsWith(x, hop) && IsAsNumber(hop))
      && exists x, y, o, p :: x in routes && y in routes && EndsWith(x, o) && EndsWith(y, p) && o != p
    case _ => false
  }

  lemma OriginFails(x: Route, routes: set<Route>)
    requires x in routes && OriginOf(x).Failure?
    ensures Fails(routes, OriginOf(x).error)
  {
    if hop :| EndsWith(x, hop) {
      assert !IsAsNumber(hop);
    }
  }

  lemma OriginsDiffer(routes: seq<Route>, k: nat)
    requires k < |routes| && forall i :: 0 <= i < |routes| ==> OriginOf(routes[i]).Success?
    requires OriginOf(routes[0]) != OriginOf(routes[k])
    ensures Fails(Elements(routes), MultipleOrigins)
  {
    hide IsAsNumber, EndsWith;
    forall x | x in Elements(routes) ensures exists hop :: EndsWith(x, hop) && IsAsNumber(hop) {
      var i :| 0 <= i < |routes| && routes[i] == x;
      assert EndsWith(x, OriginOf(x).value);
    }
    assert EndsWith(routes[0], OriginOf(routes[0]).value) && EndsWith(routes[k], OriginOf(routes[k]).value);
    assert routes[0] in Elements(routes) && routes[k] in Elements(routes);
  }

  lemma Among(routes: seq<Route>, i: nat)
    requires i < |routes|
    ensures routes[i] in Elements(routes)
  {
  }

  /** The single origin of the routes at the most specific prefix. The refusal for several
      most-specific prefixes is never reached. */
  method ChooseRoute(routes: seq<Route>, a: Address) returns (r: Result<(Net, string), RouteError>)
    requires ValidRoutes(routes)
    ensures r != Failure(MultipleMostSpecific)
    ensures r == Failure(NoRoute) <==> forall x :: x in routes ==> !x.net.Has(a)
    ensures r.Success? ==> MostSpecific(routes, a, r.value.0) && ShareOrigin(routes, r.value.0, r.value.1)
    ensures r.Failure? && r.error != NoRoute ==>
              exists net :: MostSpecific(routes, a, net) && (forall o :: !ShareOrigin(routes, net, o))
                            && Fails(RoutesAt(routes, net), r.error)
  {
    var byPrefix := GroupByPrefix(routes, a);
    if byPrefix == map[] {
      assert forall x :: x in routes && x.net.Has(a) ==> x.net in byPrefix;
      return Failure(NoRoute);
    }
    var best := set b | b in byPrefix && forall c :: c in byPrefix ==> b.Bits() <= c.Bits();
    ghost var least := LeastBits(byPrefix.Keys);
    assert least in best;
    forall b | b in best ensures MostSpecific(routes, a, b) && b == least {
      assert forall x :: x in routes && x.net.Has(a) ==> x.net in byPrefix;
      assert MostSpecific(routes, a, b) && MostSpecific(routes, a, least);
      MostSpecificUnique(routes, a, b, least);
    }
    assert best == {least};
    if |best| != 1 {
      return Failure(MultipleMostSpecific);
    }
    var net :| net in best;
    r := SingleOrigin(byPrefix[net], net);
    assert Elements(byPrefix[net]) == RoutesAt(routes, net);
  }

  ghost function LeastBits(s: set<Net>): (m: Net)
    requires s != {}
    ensures m in s && forall b :: b in s ==> m.Bits() <= b.Bits()
  {
    var y :| y in s;
    if s == {y} then
      assert forall b :: b in s ==> b == y;
      y
    else
      var n := LeastBits(s - {y});
      assert forall b :: b in s ==> b == y || b in s - {y};
      if y.Bits() < n.Bits() then y else n
  }

  method SingleOrigin(routes: seq<Route>, net: Net) returns (r: Result<(Net, string), RouteError>)
    requires routes != []
    ensures r.Success? ==> r.value.0 == net && forall x :: x in routes ==> OriginOf(x) == Success(r.value.1)
    ensures r.Failure? ==> r.error != NoRoute && r.error != MultipleMostSpecific
                           && !exists o :: forall x :: x in routes ==> OriginOf(x) == Success(o)
    ensures r.Failure? ==> Fails(Elements(routes), r.error)
  {
    hide OriginOf, EndsWith, IsAsNumber, Fails, Elements;
    var origins: set<string> := {};
    for i := 0 to |routes|
      invariant forall k :: 0 <= k < i ==> OriginOf(routes[k]).Success? && OriginOf(routes[k]).value in origins
      invariant forall o :: o in origins ==> exists k :: 0 <= k < i && OriginOf(routes[k]) == Success(o)
    {
      assert routes[i] in routes;
      var origin := OriginOf(routes[i]);
      if origin.Failure? {
        Among(routes, i);
        OriginFails(routes[i], Elements(routes));
        return Failure(origin.error);
      }
      origins := origins + {origin.value};
    }
    assert OriginOf(routes[0]).value in origins;
    var first := OriginOf(routes[0]).value;
    if |origins| != 1 {
      NotSingleton(origins, first);
      ghost var other := AnyOf(origins - {first});
      ghost var k :| 0 <= k < |routes| && OriginOf(routes[k]) == Success(other);
      assert routes[0] in routes && routes[k] in routes;
      OriginsDiffer(routes, k);
      return Failure(MultipleOrigins);
    }
    assert origins == {first} by {
      assert |origins - {first}| == 0;
    }
    r := Success((net, first));
  }
}
