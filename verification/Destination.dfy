/** Selecting the one logged delivery an attempt's response speaks of, checking that the pin
    was in effect, and pairing the attempt from there. */
module Destination {
  import opened Wrappers
  import opened Pairing

  datatype Request = Request(uri: string, verb: string, remoteIp: string, remotePort: string, protocol: string, host: string)

  /** A row of the server log; times are in milliseconds. */
  datatype CaddyRow = CaddyRow(request: Option<Request>, runId: string, uuid: string, status: Option<int>, time: Option<int>)

  datatype Response = Response(runId: string, uuid: string, remoteIp: string, remotePort: string, protocol: string,
                               uri: string, host: string, time: Option<int>)

  function ProbeUri(runId: string): string {
    "/probe/" + runId
  }

  predicate Tagged(row: CaddyRow, runId: string) {
    row.request.Some? && row.runId == runId && row.request.value.uri == ProbeUri(runId)
  }

  function HostOnly(host: string): string {
    if host == [] || host[0] == ':' then [] else [host[0]] + HostOnly(host[1..])
  }

  /** The host is what stands before the first colon. */
  lemma {:induction false} HostBeforeColon(host: string, rest: string)
    requires ':' !in host && (rest == [] || rest[0] == ':')
    ensures HostOnly(host + rest) == host
  {
    if host == [] {
      assert host + rest == rest;
    } else {
      assert host[0] in host;
      assert (host + rest)[1..] == host[1..] + rest;
      HostBeforeColon(host[1..], rest);
    }
  }

  const OK_STATUS := 200
  const CLOCK_TOLERANCE := 2000

  /** The response repeats what the log says about the delivery. */
  predicate Agrees(row: CaddyRow, runId: string, response: Response)
    requires row.request.Some?
  {
    var q := row.request.value;
    && q.verb == "GET" && row.status == Some(OK_STATUS)
    && response.runId == runId && response.uuid == row.uuid
    && response.remoteIp == q.remoteIp && response.remotePort == q.remotePort
    && response.protocol == q.protocol && response.uri == ProbeUri(runId)
    && HostOnly(response.host) == HostOnly(q.host)
    && response.time.Some? && row.time.Some?
    && -CLOCK_TOLERANCE <= response.time.value - row.time.value <= CLOCK_TOLERANCE
  }

  /** The row is the only tagged one, by position. */
  ghost predicate OnlyTagged(records: seq<CaddyRow>, runId: string, row: CaddyRow) {
    exists i :: 0 <= i < |records| && records[i] == row && Tagged(records[i], runId)
                && forall j :: 0 <= j < |records| && j != i ==> !Tagged(records[j], runId)
  }

  ghost predicate ExactPair(records: seq<CaddyRow>, runId: string, response: Response, row: CaddyRow) {
    && runId != "" && response.uuid != ""
    && Tagged(row, runId) && OnlyTagged(records, runId, row)
    && row.uuid == response.uuid && Agrees(row, runId, response)
  }

  lemma PairUnique(records: seq<CaddyRow>, runId: string, response: Response, r: CaddyRow, s: CaddyRow)
    requires ExactPair(records, runId, response, r) && ExactPair(records, runId, response, s)
    ensures r == s
  {
  }

  /** The positions of the tagged rows. */
  method TaggedRows(records: seq<CaddyRow>, runId: string) returns (tagged: seq<nat>)
    ensures forall i :: i in tagged <==> 0 <= i < |records| && Tagged(records[i], runId)
    ensures forall i, j :: 0 <= i < j < |tagged| ==> tagged[i] < tagged[j]
  {
    tagged := [];
    for i := 0 to |records|
      invariant forall k :: k in tagged <==> 0 <= k < i && Tagged(records[k], runId)
      invariant forall k, m :: 0 <= k < m < |tagged| ==> tagged[k] < tagged[m]
    {
      if Tagged(records[i], runId) {
        assert forall k :: 0 <= k < |tagged| ==> tagged[k] in tagged;
        tagged := tagged + [i];
      }
    }
  }

  lemma SeveralTagged(records: seq<CaddyRow>, runId: string, tagged: seq<nat>, row: CaddyRow)
    requires forall i :: i in tagged <==> 0 <= i < |records| && Tagged(records[i], runId)
    requires forall i, j :: 0 <= i < j < |tagged| ==> tagged[i] < tagged[j]
    ensures |tagged| == 1 ==> tagged[0] < |records| && (OnlyTagged(records, runId, row) <==> row == records[tagged[0]])
    ensures |tagged| != 1 ==> !OnlyTagged(records, runId, row)
  {
    if |tagged| == 1 {
      assert tagged[0] in tagged;
      forall j | 0 <= j < |records| && j != tagged[0] ensures !Tagged(records[j], runId) {
        assert j !in tagged;
      }
    } else if |tagged| > 1 {
      assert tagged[0] in tagged && tagged[1] in tagged;
    }
  }

  /** Selects the row the response pairs with, or none. */
  method ExactCaddyPair(records: seq<CaddyRow>, runId: string, response: Response) returns (row: Option<CaddyRow>)
    ensures row.Some? ==> ExactPair(records, runId, response, row.value)
    ensures row.None? ==> forall r :: !ExactPair(records, runId, response, r)
  {
    hide OnlyTagged, Agrees, Tagged;
    if runId == "" || response.uuid == "" {
      return None;
    }
    var tagged := TaggedRows(records, runId);
    forall r {
      SeveralTagged(records, runId, tagged, r);
    }
    if |tagged| != 1 {
      return None;
    }
    assert tagged[0] in tagged;
    var only := records[tagged[0]];
    assert only.request.Some? by { TaggedRequest(only, runId); }
    if only.uuid != response.uuid || !Agrees(only, runId, response) {
      return None;
    }
    row := Some(only);
  }

  lemma TaggedRequest(row: CaddyRow, runId: string)
    requires Tagged(row, runId)
    ensures row.request.Some?
  {
  }

  // ---------- The selected delivery ----------

  /** What was logged for one attempt; `pcapsFound` says a server capture of the right time is
      there, and the two readers give the address and port a text denotes, if any. */
  datatype Log = Log(records: seq<CaddyRow>, runId: string, response: Option<Response>, pcapsFound: bool,
                     readIp: string -> Option<int>, readPort: string -> Option<nat>)

  function DeliveryOf(log: Log, row: CaddyRow): (delivery: Option<Delivery>)
    ensures forall d :: delivery == Some(d) <==> Logged(log, row, d)
  {
    if row.request.None? || row.time.None? then None
    else
      var q := row.request.value;
      var ip, port := log.readIp(q.remoteIp), log.readPort(q.remotePort);
      if ip.None? || port.None? then None else Some(Delivery(ip.value, port.value, q.protocol, row.time.value))
  }

  /** The log pairs exactly with the response, and its delivery can be evaluated. */
  ghost predicate Delivered(log: Log, d: Delivery) {
    && log.response.Some? && log.pcapsFound
    && exists row :: ExactPair(log.records, log.runId, log.response.value, row) && Logged(log, row, d)
  }

  /** The row tells of this delivery: its address, port, protocol and time. */
  predicate Logged(log: Log, row: CaddyRow, d: Delivery) {
    && row.time == Some(d.time) && row.request.Some? && row.request.value.protocol == d.protocol
    && log.readIp(row.request.value.remoteIp) == Some(d.remoteIp)
    && log.readPort(row.request.value.remotePort) == Some(d.remotePort)
  }

  /** The delivery to evaluate, and whether pairing failed. Without a response there must be
      no tagged row either. */
  method SelectDelivery(log: Log) returns (delivery: Option<Delivery>, errors: bool)
    ensures forall d :: Delivered(log, d) <==> !errors && delivery == Some(d)
    ensures log.response.None? ==> delivery.None? && (errors <==> exists r :: r in log.records && Tagged(r, log.runId))
    ensures log.response.Some? && delivery.None? ==> errors
  {
    hide ExactPair, Tagged;
    if log.response.None? {
      return None, exists r :: r in log.records && Tagged(r, log.runId);
    }
    var row := ExactCaddyPair(log.records, log.runId, log.response.value);
    if row.None? {
      return None, true;
    }
    forall r | ExactPair(log.records, log.runId, log.response.value, r) ensures r == row.value {
      PairUnique(log.records, log.runId, log.response.value, r, row.value);
    }
    delivery := DeliveryOf(log, row.value);
    errors := delivery.None? || !log.pcapsFound;
  }

  // ---------- The effective pin ----------

  datatype Lookup = Lookup(ipv4: set<int>, anyIpv6: bool)

  datatype PinEvidence = PinEvidence(pinIp: int, shared: Lookup, byName: map<string, Lookup>, noIpv6Route: bool)

  const PINNED_NAMES := {"mask.icloud.com", "mask-h2.icloud.com"}

  predicate OnlyPin(l: Lookup, intended: int, noIpv6Route: bool) {
    l.ipv4 == {intended} && (l.anyIpv6 ==> noIpv6Route)
  }

  /** Every lookup gave the pin alone, and no IPv6 answer could have been used. */
  predicate PinEffective(p: PinEvidence, intended: int) {
    && p.pinIp == intended && OnlyPin(p.shared, intended, p.noIpv6Route)
    && forall name :: name in PINNED_NAMES ==> name in p.byName && OnlyPin(p.byName[name], intended, p.noIpv6Route)
  }

  // ---------- Pairing one attempt ----------

  /** Pairs the log, checks the pin, and classifies the attempt; the delivery and the failed
      checks are filled in here. An exactly paired delivery is judged as such, no delivery at
      all as none, and everything else is excluded. */
  method PairTrial(log: Log, pin: PinEvidence, recorded: Attempt) returns (acceptance: Acceptance)
    ensures PinEffective(pin, recorded.intended) ==>
              && (forall d :: Delivered(log, d) ==>
                    forall v :: Warrants(recorded.(delivery := Some(d)), v) <==> v == acceptance)
              && (Undelivered(log) ==> forall v :: Warrants(recorded.(delivery := None), v) <==> v == acceptance)
    ensures !PinEffective(pin, recorded.intended) || (!Undelivered(log) && forall d :: !Delivered(log, d)) ==>
              acceptance == if recorded.outcome == DirectBypass then SafetyStop else ExcludedAmbiguous
  {
    hide Delivered, Warrants, PinEffective;
    var delivery, errors := SelectDelivery(log);
    var effective := PinEffective(pin, recorded.intended);
    var a := recorded.(delivery := delivery, otherErrors := recorded.otherErrors || errors || !effective);
    acceptance := PairAttempt(a);
    ErrorsExclude(a);
    if !errors && effective {
      assert a == recorded.(delivery := delivery);
    }
  }

  /** Nothing answered, and no row is tagged with the run. */
  ghost predicate Undelivered(log: Log) {
    log.response.None? && forall r :: r in log.records ==> !Tagged(r, log.runId)
  }

  /** A failed check leaves no finding. */
  lemma ErrorsExclude(a: Attempt)
    ensures a.otherErrors ==> Warrants(a, if a.outcome == DirectBypass then SafetyStop else ExcludedAmbiguous)
  {
  }
}
