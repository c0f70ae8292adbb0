/** Pairing one diagnostic attempt: client contacts, server flow, packet filter evidence,
    classification, and the gate that the attempt's lifecycle puts on it. */
module Pairing {
  import opened Wrappers
  import opened Blocks
  import opened Counting
  import opened Snapshot
  import opened PrefixMatch

  datatype Transport = Tcp | Udp | Unknown

  /** A decoded packet. Times are integers; `dcid` is empty when the packet has none. */
  datatype Packet = Packet(time: Option<int>, frame: nat, src: Option<int>, dst: Option<int>, transport: Transport,
                           srcPort: Option<nat>, dstPort: Option<nat>, syn: bool, ack: bool, initial: bool, dcid: string)

  const HTTPS := Some(443)

  // ---------- Packets in capture order ----------

  function Moment(p: Packet): int {
    if p.time.Some? then p.time.value else 0
  }

  predicate Before(p: Packet, q: Packet) {
    if p.time.None? != q.time.None? then p.time.Some?
    else Moment(p) < Moment(q) || (Moment(p) == Moment(q) && p.frame <= q.frame)
  }

  function Insert(p: Packet, s: seq<Packet>): (r: seq<Packet>)
    ensures forall q :: q in r <==> q == p || q in s
  {
    if s == [] || Before(p, s[0]) then [p] + s
    else
      assert forall q :: q in s <==> q == s[0] || q in s[1..];
      [s[0]] + Insert(p, s[1..])
  }

  /** Timed packets first, by time and then frame number. */
  function Sorted(s: seq<Packet>): (r: seq<Packet>)
    ensures forall q :: q in r <==> q in s
  {
    if s == [] then []
    else
      assert forall q :: q in s <==> q == s[0] || q in s[1..];
      Insert(s[0], Sorted(s[1..]))
  }

  ghost predicate InOrder(s: seq<Packet>) {
    forall i, j :: 0 <= i < j < |s| ==> Before(s[i], s[j])
  }

  lemma {:induction false} InsertInOrder(p: Packet, s: seq<Packet>)
    requires InOrder(s)
    ensures InOrder(Insert(p, s))
  {
    if s == [] || Before(p, s[0]) {
    } else {
      var rest := Insert(p, s[1..]);
      InsertInOrder(p, s[1..]);
      forall j | 0 <= j < |rest| ensures Before(s[0], rest[j]) {
        assert rest[j] in rest;
      }
    }
  }

  lemma {:induction false} SortedInOrder(s: seq<Packet>)
    ensures InOrder(Sorted(s))
  {
    if s != [] {
      SortedInOrder(s[1..]);
      InsertInOrder(s[0], Sorted(s[1..]));
    }
  }

  // ---------- Client contacts ----------

  datatype Window = Window(start: Option<int>, end: Option<int>)

  predicate NotAfterEnd(t: int, w: Window) {
    w.end.None? || t <= w.end.value
  }

  predicate Within(p: Packet, w: Window) {
    p.time.Some? && (w.start.None? || w.start.value <= p.time.value) && NotAfterEnd(p.time.value, w)
  }

  /** A packet that opens an outer connection, and over which transport. */
  function SetupKind(p: Packet): Option<Transport> {
    if p.dstPort != HTTPS then None
    else if p.transport == Tcp && p.syn && !p.ack then Some(Tcp)
    else if p.transport == Udp && p.initial && p.dcid != "" then Some(Udp)
    else None
  }

  predicate Reply(p: Packet, c: Packet, w: Window) {
    && p.time.Some? && c.time.Some? && p.time.value <= c.time.value && NotAfterEnd(c.time.value, w)
    && c.transport == p.transport && c.src == p.dst && c.dst == p.src && c.srcPort == HTTPS && c.dstPort == p.srcPort
  }

  predicate SynAck(p: Packet, c: Packet, w: Window) {
    Reply(p, c, w) && c.syn && c.ack
  }

  predicate FinalAck(p: Packet, s: Packet, c: Packet, w: Window) {
    && s.time.Some? && c.time.Some? && s.time.value <= c.time.value && NotAfterEnd(c.time.value, w)
    && c.transport == Tcp && c.src == p.src && c.dst == p.dst && c.srcPort == p.srcPort && c.dstPort == HTTPS
    && c.ack && !c.syn
  }

  /** A SYN answered by a SYN-ACK and then acknowledged, in time order before the window's end. */
  ghost predicate Handshake(packets: seq<Packet>, p: Packet, w: Window) {
    exists s, c :: s in packets && c in packets && SynAck(p, s, w) && FinalAck(p, s, c, w)
  }

  method FindAck(packets: seq<Packet>, p: Packet, s: Packet, w: Window) returns (ack: Option<Packet>)
    ensures ack.Some? <==> exists c :: c in packets && FinalAck(p, s, c, w)
    ensures ack.Some? ==> ack.value in packets && FinalAck(p, s, ack.value, w)
  {
    for i := 0 to |packets|
      invariant forall k :: 0 <= k < i ==> !FinalAck(p, s, packets[k], w)
    {
      if FinalAck(p, s, packets[i], w) {
        return Some(packets[i]);
      }
    }
    ack := None;
  }

  /** The first SYN-ACK that a later ACK completes. */
  method FindHandshake(packets: seq<Packet>, p: Packet, w: Window) returns (e: Option<(Packet, Packet)>)
    ensures e.Some? <==> Handshake(packets, p, w)
    ensures e.Some? ==> && e.value.0 in packets && SynAck(p, e.value.0, w)
                        && e.value.1 in packets && FinalAck(p, e.value.0, e.value.1, w)
  {
    for i := 0 to |packets|
      invariant forall k, c :: 0 <= k < i && c in packets ==> !(SynAck(p, packets[k], w) && FinalAck(p, packets[k], c, w))
    {
      if SynAck(p, packets[i], w) {
        var ack := FindAck(packets, p, packets[i], w);
        if ack.Some? {
          return Some((packets[i], ack.value));
        }
      }
    }
    e := None;
  }

  method AnyReply(packets: seq<Packet>, p: Packet, w: Window) returns (b: bool)
    ensures b <==> exists c :: c in packets && Reply(p, c, w)
  {
    for i := 0 to |packets|
      invariant forall k :: 0 <= k < i ==> !Reply(p, packets[k], w)
    {
      if Reply(p, packets[i], w) {
        return true;
      }
    }
    b := false;
  }

  datatype Contact = Contact(setup: Packet, transport: Transport, attributable: bool, intended: bool,
                             bidirectional: bool, handshake: Option<(Packet, Packet)>)

  datatype Flow = Flow(dst: int, srcPort: Option<nat>)

  datatype Outer = NoOuter | Only(t: Transport) | Mixed

  datatype Client = Client(contacts: seq<Contact>, direct: seq<Packet>, observed: seq<int>, flows: set<Flow>, outer: Outer,
                           unambiguousFallback: bool, udpAttempt: bool, udpFailover: bool)

  const NO_CLIENT := Client([], [], [], {}, NoOuter, false, false, false)

  /** What the capture is read against. */
  datatype Scope = Scope(candidates: set<int>, origin: int, intended: int, hostnames: map<int, seq<string>>, window: Window)

  predicate Candidate(p: Packet, scope: Scope) {
    p.dst.Some? && p.dst.value in scope.candidates - {scope.origin}
  }

  predicate Named(p: Packet, scope: Scope) {
    p.dst.Some? && p.dst.value in scope.hostnames && scope.hostnames[p.dst.value] != []
  }

  /** An attributable connection attempt: predeclared, named, and inside the window. */
  predicate Attributable(p: Packet, kind: Transport, scope: Scope) {
    SetupKind(p) == Some(kind) && Candidate(p, scope) && Within(p, scope.window) && Named(p, scope)
  }

  predicate DirectOrigin(p: Packet, scope: Scope) {
    p.dst == Some(scope.origin) && p.dstPort == HTTPS
  }

  ghost predicate EstablishedFlow(packets: seq<Packet>, scope: Scope, f: Flow) {
    exists p :: p in packets && Attributable(p, Tcp, scope) && p.dst == Some(f.dst) && p.srcPort == f.srcPort
                && Handshake(packets, p, scope.window)
  }

  /** QUIC to an ingress other than the pinned one, answered. */
  ghost predicate Failover(packets: seq<Packet>, scope: Scope) {
    exists p :: p in packets && Attributable(p, Udp, scope) && p.dst != Some(scope.intended)
                && exists c :: c in packets && Reply(p, c, scope.window)
  }

  ghost predicate RightContact(packets: seq<Packet>, scope: Scope, c: Contact) {
    var p := c.setup;
    && p in packets && SetupKind(p) == Some(c.transport) && Candidate(p, scope) && Within(p, scope.window)
    && c.attributable == Named(p, scope) && c.intended == (p.dst == Some(scope.intended))
    && (c.bidirectional <==> exists r :: r in packets && Reply(p, r, scope.window))
    && (c.handshake.Some? <==> c.transport == Tcp && Handshake(packets, p, scope.window))
    && (c.handshake.Some? ==> && c.handshake.value.0 in packets && SynAck(p, c.handshake.value.0, scope.window)
                              && c.handshake.value.1 in packets
                              && FinalAck(p, c.handshake.value.0, c.handshake.value.1, scope.window))
  }

  /** The contacts are those of the packets read so far, each with its evidence. */
  ghost predicate ContactsOf(contacts: seq<Contact>, read: seq<Packet>, packets: seq<Packet>, scope: Scope) {
    && (forall c :: c in contacts ==> RightContact(packets, scope, c) && c.setup in read)
    && (forall p :: p in read && SetupKind(p).Some? && Candidate(p, scope) && Within(p, scope.window) ==>
          exists c :: c in contacts && c.setup == p)
  }

  method ContactFor(packets: seq<Packet>, p: Packet, scope: Scope) returns (c: Contact)
    requires p in packets && SetupKind(p).Some? && Candidate(p, scope) && Within(p, scope.window)
    ensures c.setup == p && RightContact(packets, scope, c)
  {
    var kind := SetupKind(p).value;
    var answered := AnyReply(packets, p, scope.window);
    var handshake: Option<(Packet, Packet)> := None;
    if kind == Tcp && answered {
      handshake := FindHandshake(packets, p, scope.window);
    }
    if kind == Tcp && !answered {
      assert !Handshake(packets, p, scope.window);
    }
    c := Contact(p, kind, Named(p, scope), p.dst == Some(scope.intended), answered, handshake);
  }

  method ReadContacts(packets: seq<Packet>, scope: Scope) returns (contacts: seq<Contact>, direct: seq<Packet>)
    requires InOrder(packets)
    ensures ContactsOf(contacts, packets, packets, scope)
    ensures forall i, j :: 0 <= i < j < |contacts| ==> Before(contacts[i].setup, contacts[j].setup)
    ensures forall p :: p in direct <==> p in packets && DirectOrigin(p, scope)
  {
    hide RightContact;
    contacts, direct := [], [];
    for i := 0 to |packets|
      invariant ContactsOf(contacts, packets[..i], packets, scope)
      invariant forall j, k :: 0 <= j < k < |contacts| ==> Before(contacts[j].setup, contacts[k].setup)
      invariant forall p :: p in direct <==> p in packets[..i] && DirectOrigin(p, scope)
    {
      var p := packets[i];
      assert packets[..i + 1] == packets[..i] + [p];
      if DirectOrigin(p, scope) {
        direct := direct + [p];
      }
      if SetupKind(p).Some? && Candidate(p, scope) && Within(p, scope.window) {
        var c := ContactFor(packets, p, scope);
        forall j | 0 <= j < |contacts| ensures Before(contacts[j].setup, p) {
          assert contacts[j] in contacts;
        }
        contacts := contacts + [c];
      }
    }
    assert packets[..|packets|] == packets;
  }

  function TransportsOf(contacts: seq<Contact>): set<Transport> {
    set c | c in contacts && c.attributable :: c.transport
  }

  function FlowsOf(contacts: seq<Contact>): set<Flow> {
    set c | c in contacts && c.attributable && c.transport == Tcp && c.handshake.Some? && c.setup.dst.Some?
      :: Flow(c.setup.dst.value, c.setup.srcPort)
  }

  predicate AnyFailover(contacts: seq<Contact>) {
    exists c :: c in contacts && c.attributable && c.transport == Udp && !c.intended && c.bidirectional
  }

  predicate AnyOtherUdp(contacts: seq<Contact>) {
    exists c :: c in contacts && c.attributable && c.transport == Udp && !c.intended
  }

  /** The contact at `k` is the first to its address. */
  ghost predicate FirstTo(contacts: seq<Contact>, k: nat, a: int) {
    k < |contacts| && contacts[k].setup.dst == Some(a) && forall j :: 0 <= j < k ==> contacts[j].setup.dst != Some(a)
  }

  /** The contacted addresses, each once, in the order of their first contacts. */
  ghost predicate ObservedOf(observed: seq<int>, contacts: seq<Contact>) {
    && (forall c :: c in contacts && c.setup.dst.Some? ==> c.setup.dst.value in observed)
    && exists firsts: seq<nat> :: FirstsOf(firsts, observed, contacts)
  }

  ghost predicate FirstsOf(firsts: seq<nat>, observed: seq<int>, contacts: seq<Contact>) {
    && |firsts| == |observed|
    && (forall i :: 0 <= i < |firsts| ==> FirstTo(contacts, firsts[i], observed[i]))
    && forall i, j :: 0 <= i < j < |firsts| ==> firsts[i] < firsts[j]
  }

  method ObservedAddresses(contacts: seq<Contact>) returns (observed: seq<int>)
    ensures ObservedOf(observed, contacts)
  {
    observed := [];
    ghost var firsts: seq<nat> := [];
    for k := 0 to |contacts|
      invariant forall j :: 0 <= j < k && contacts[j].setup.dst.Some? ==> contacts[j].setup.dst.value in observed
      invariant FirstsOf(firsts, observed, contacts) && forall i :: 0 <= i < |firsts| ==> firsts[i] < k
    {
      var dst := contacts[k].setup.dst;
      if dst.Some? && dst.value !in observed {
        assert FirstTo(contacts, k, dst.value);
        observed, firsts := observed + [dst.value], firsts + [k];
      }
    }
  }

  function OuterOf(transports: set<Transport>): Outer {
    if transports == {} then NoOuter
    else if transports == {Tcp} then Only(Tcp)
    else if transports == {Udp} then Only(Udp)
    else Mixed
  }

  /** What the capture says, whatever the order its packets were given in. */
  ghost predicate ClientSays(c: Client, packets: seq<Packet>, scope: Scope) {
    && (forall f :: f in c.flows <==> EstablishedFlow(packets, scope, f))
    && (c.unambiguousFallback <==> |c.flows| == 1)
    && (c.udpFailover <==> Failover(packets, scope))
    && (c.direct == [] <==> forall p :: p in packets ==> !DirectOrigin(p, scope))
    && ObservedOf(c.observed, c.contacts)
    && (c.udpAttempt <==> exists p :: p in packets && Attributable(p, Udp, scope) && p.dst != Some(scope.intended))
    && c.outer == (if Attempted(packets, scope, Tcp) then if Attempted(packets, scope, Udp) then Mixed else Only(Tcp)
                   else if Attempted(packets, scope, Udp) then Only(Udp) else NoOuter)
  }

  /** Some connection over this transport is attributed. */
  ghost predicate Attempted(packets: seq<Packet>, scope: Scope, t: Transport) {
    exists p :: p in packets && Attributable(p, t, scope)
  }

  lemma FlowsEstablished(contacts: seq<Contact>, packets: seq<Packet>, scope: Scope, f: Flow)
    requires ContactsOf(contacts, packets, packets, scope)
    ensures f in FlowsOf(contacts) <==> EstablishedFlow(packets, scope, f)
  {
    hide SetupKind, Within, Candidate, Handshake, SynAck, FinalAck, Reply;
    if EstablishedFlow(packets, scope, f) {
      var p :| p in packets && Attributable(p, Tcp, scope) && p.dst == Some(f.dst) && p.srcPort == f.srcPort
               && Handshake(packets, p, scope.window);
      var c :| c in contacts && c.setup == p;
      assert RightContact(packets, scope, c);
    }
    if f in FlowsOf(contacts) {
      var c :| c in contacts && c.attributable && c.transport == Tcp && c.handshake.Some? && c.setup.dst.Some?
               && f == Flow(c.setup.dst.value, c.setup.srcPort);
      assert RightContact(packets, scope, c);
    }
  }

  lemma TransportSeen(contacts: seq<Contact>, packets: seq<Packet>, scope: Scope, t: Transport)
    requires ContactsOf(contacts, packets, packets, scope)
    ensures t in TransportsOf(contacts) <==> Attempted(packets, scope, t)
  {
    hide SetupKind, Within, Candidate, Handshake, SynAck, FinalAck, Reply;
    forall p | p in packets && Attributable(p, t, scope) ensures t in TransportsOf(contacts) {
      var c :| c in contacts && c.setup == p;
      assert RightContact(packets, scope, c);
    }
    forall c | c in contacts && c.attributable && c.transport == t
      ensures exists p :: p in packets && Attributable(p, t, scope)
    {
      assert RightContact(packets, scope, c);
      assert c.setup in packets && Attributable(c.setup, t, scope);
    }
  }

  lemma FailoverSeen(contacts: seq<Contact>, packets: seq<Packet>, scope: Scope)
    requires ContactsOf(contacts, packets, packets, scope)
    ensures AnyFailover(contacts) <==> Failover(packets, scope)
    ensures AnyOtherUdp(contacts) <==> exists p :: p in packets && Attributable(p, Udp, scope) && p.dst != Some(scope.intended)
  {
    hide SetupKind, Within, Candidate, Handshake, SynAck, FinalAck, Reply;
    if AnyOtherUdp(contacts) {
      var c :| c in contacts && c.attributable && c.transport == Udp && !c.intended;
      assert RightContact(packets, scope, c);
      assert c.setup in packets && Attributable(c.setup, Udp, scope);
    }
    forall p | p in packets && Attributable(p, Udp, scope) && p.dst != Some(scope.intended) ensures AnyOtherUdp(contacts) {
      var c :| c in contacts && c.setup == p;
      assert RightContact(packets, scope, c);
    }
    if AnyFailover(contacts) {
      var c :| c in contacts && c.attributable && c.transport == Udp && !c.intended && c.bidirectional;
      assert RightContact(packets, scope, c);
      assert c.setup in packets && Attributable(c.setup, Udp, scope);
    }
    if Failover(packets, scope) {
      var p :| p in packets && Attributable(p, Udp, scope) && p.dst != Some(scope.intended)
               && exists c :: c in packets && Reply(p, c, scope.window);
      var c :| c in contacts && c.setup == p;
      assert RightContact(packets, scope, c);
    }
  }

  /** Contacts of a capture, and the verdicts drawn from them. */
  method ClientContacts(packets: seq<Packet>, scope: Scope) returns (client: Client)
    ensures ClientSays(client, packets, scope)
    ensures ContactsOf(client.contacts, packets, packets, scope)
    ensures forall i, j :: 0 <= i < j < |client.contacts| ==> Before(client.contacts[i].setup, client.contacts[j].setup)
  {
    hide ContactsOf, EstablishedFlow, Failover, Attributable, DirectOrigin, Before, ObservedOf, Attempted;
    var ordered := Sorted(packets);
    SortedInOrder(packets);
    var contacts, direct := ReadContacts(ordered, scope);
    OrderIrrelevant(contacts, ordered, packets, scope);
    forall f ensures f in FlowsOf(contacts) <==> EstablishedFlow(packets, scope, f) {
      FlowsEstablished(contacts, packets, scope, f);
    }
    forall t ensures t in TransportsOf(contacts) <==> Attempted(packets, scope, t) {
      TransportSeen(contacts, packets, scope, t);
    }
    FailoverSeen(contacts, packets, scope);
    var flows, transports := FlowsOf(contacts), TransportsOf(contacts);
    var observed := ObservedAddresses(contacts);
    client := Client(contacts, direct, observed, flows, OuterOf(transports), |flows| == 1, AnyOtherUdp(contacts),
                     AnyFailover(contacts));
    NoUnknown(packets, scope);
    OuterDecides(transports);
    assert direct == [] <==> forall p :: p in packets ==> !DirectOrigin(p, scope) by {
      if direct != [] {
        assert direct[0] in direct;
      }
    }
  }

  lemma OuterDecides(transports: set<Transport>)
    requires Unknown !in transports
    ensures OuterOf(transports) == if Tcp in transports then if Udp in transports then Mixed else Only(Tcp)
                                   else if Udp in transports then Only(Udp) else NoOuter
  {
    forall t | t in transports ensures t == Tcp || t == Udp {
      assert t.Tcp? || t.Udp? || t.Unknown?;
    }
    if Tcp in transports && Udp !in transports {
      assert transports == {Tcp};
    } else if Udp in transports && Tcp !in transports {
      assert transports == {Udp};
    }
  }

  lemma NoUnknown(packets: seq<Packet>, scope: Scope)
    ensures !Attempted(packets, scope, Unknown)
  {
  }

  lemma OrderIrrelevant(contacts: seq<Contact>, ordered: seq<Packet>, packets: seq<Packet>, scope: Scope)
    requires ContactsOf(contacts, ordered, ordered, scope) && forall p :: p in ordered <==> p in packets
    ensures ContactsOf(contacts, packets, packets, scope)
  {
    hide SetupKind, Within, Candidate, SynAck, FinalAck, Reply;
    forall p ensures Handshake(ordered, p, scope.window) <==> Handshake(packets, p, scope.window) {
    }
    forall c | c in contacts ensures RightContact(packets, scope, c) {
      assert RightContact(ordered, scope, c);
    }
  }

  // ---------- The server's side ----------

  /** The delivery the server logged. `protocol` is the logged HTTP version. */
  datatype Delivery = Delivery(remoteIp: int, remotePort: nat, protocol: string, time: int)

  predicate OverQuic(d: Delivery) {
    d.protocol == "HTTP/3.0"
  }

  /** A connection setup on exactly the five-tuple of the delivery. */
  predicate ServerSetup(p: Packet, d: Delivery, privateIp: int) {
    && p.time.Some? && p.src == Some(d.remoteIp) && p.dst == Some(privateIp) && p.srcPort == Some(d.remotePort)
    && p.dstPort == HTTPS && p.transport == (if OverQuic(d) then Udp else Tcp)
    && (if OverQuic(d) then p.initial && p.dcid != "" else p.syn && !p.ack)
  }

  /** The earliest setup lies between the launch and the delivery, which is inside the window. */
  ghost predicate FreshSetup(packets: seq<Packet>, d: Delivery, privateIp: int, start: int, end: int) {
    && d.time <= end
    && (exists p :: p in packets && ServerSetup(p, d, privateIp) && p.time.value <= d.time)
    && (forall p :: p in packets && ServerSetup(p, d, privateIp) ==> start <= p.time.value)
  }

  method ServerFlowEvidence(packets: seq<Packet>, d: Delivery, privateIp: int, start: int, end: int) returns (fresh_: bool)
    ensures fresh_ <==> FreshSetup(packets, d, privateIp, start, end)
  {
    var earliest: Option<int> := None;
    for i := 0 to |packets|
      invariant earliest.None? ==> forall k :: 0 <= k < i ==> !ServerSetup(packets[k], d, privateIp)
      invariant earliest.Some? ==>
        && (exists p :: p in packets && ServerSetup(p, d, privateIp) && p.time == earliest)
        && forall k :: 0 <= k < i && ServerSetup(packets[k], d, privateIp) ==> earliest.value <= packets[k].time.value
    {
      assert packets[i] in packets;
      if ServerSetup(packets[i], d, privateIp) && (earliest.None? || packets[i].time.value < earliest.value) {
        earliest := packets[i].time;
      }
    }
    fresh_ := earliest.Some? && start <= earliest.value <= d.time <= end;
  }

  // ---------- Packet filter evidence ----------

  datatype Condition = Permitted | Blocked | OtherCondition

  /** The recorded packet filter state; `times` are the recorded moments in the order the
      steps are taken, None where one is missing or unreadable, and `common` says the anchor,
      condition, prior rules and required moments are as they must be. */
  datatype Firewall = Firewall(common: bool, rule: string, loaded: seq<string>, ruleLoaded: bool,
                               times: seq<Option<int>>, before: Option<nat>, after: Option<nat>)

  predicate Mentions(text: string, part: string) {
    exists i :: 0 <= i <= |text| && part <= text[i..]
  }

  /** The rule the preparation is to load, and the parts a printed form of it must show. */
  datatype RuleText = RuleText(rule: string, parts: seq<string>)

  predicate Chronological(times: seq<Option<int>>) {
    && (forall i :: 0 <= i < |times| ==> times[i].Some?)
    && forall i :: 0 < i < |times| ==> times[i - 1].value <= times[i].value
  }

  predicate CountersValid(c: Condition, f: Firewall, expected: RuleText) {
    if c == Permitted then
      && f.common && Chronological(f.times) && f.rule == "" && f.loaded == [] && !f.ruleLoaded
      && (f.before.None? || f.before.value == 0) && (f.after.None? || f.after.value == 0)
    else
      && f.common && f.rule == expected.rule && |f.loaded| == 1
      && (forall part :: part in expected.parts ==> Mentions(f.loaded[0], part))
      && f.ruleLoaded && Chronological(f.times)
      && f.before.Some? && f.after.Some? && f.before.value <= f.after.value
  }

  /** The exact rule was loaded and its packet counter rose. */
  predicate Enforced(c: Condition, f: Firewall, expected: RuleText) {
    c != Permitted && CountersValid(c, f, expected) && f.before.value < f.after.value
  }

  lemma MentionedInside(text: string, part: string)
    ensures Mentions(text, part) <==> exists before, after :: text == before + part + after
  {
    if i :| 0 <= i <= |text| && part <= text[i..] {
      assert text == text[..i] + part + text[i + |part|..];
    }
    if before, after :| text == before + part + after {
      assert text[|before|..] == part + after;
    }
  }

  /** All moments are known, and none lies before an earlier one. */
  ghost predicate InTimeOrder(times: seq<Option<int>>) {
    forall i, j :: 0 <= i <= j < |times| ==> times[i].Some? && times[j].Some? && times[i].value <= times[j].value
  }

  lemma {:induction false} StepsInOrder(times: seq<Option<int>>)
    ensures Chronological(times) <==> InTimeOrder(times)
  {
    if InTimeOrder(times) {
      assert forall i :: 0 <= i < |times| ==> times[i].Some?;
    }
    if times != [] && Chronological(times) {
      var n := |times| - 1;
      StepsInOrder(times[..n]);
      forall i | 0 <= i < n ensures times[i].value <= times[n].value {
        assert times[..n][i].value <= times[..n][n - 1].value;
      }
    }
  }

  /** Enforcement rests on the exact rule, recorded and printed alone with all its parts, its
      steps in time order, and a packet counter that rose. */
  lemma EnforcedMeans(c: Condition, f: Firewall, expected: RuleText)
    ensures Enforced(c, f, expected) <==>
              && c != Permitted && f.common && f.rule == expected.rule && f.ruleLoaded && |f.loaded| == 1
              && (forall part :: part in expected.parts ==> exists before, after :: f.loaded[0] == before + part + after)
              && InTimeOrder(f.times) && Rose(f)
  {
    StepsInOrder(f.times);
    if |f.loaded| == 1 {
      forall part | part in expected.parts
        ensures Mentions(f.loaded[0], part) <==> exists before, after :: f.loaded[0] == before + part + after
      {
        MentionedInside(f.loaded[0], part);
      }
    }
  }

  predicate Rose(f: Firewall) {
    f.before.Some? && f.after.Some? && f.before.value < f.after.value
  }

  // ---------- Classification and the lifecycle gate ----------

  datatype Acceptance = ExcludedAmbiguous | ObservedNonSupporting | SafetyStop | ExcludedBypass
    | SupportsPrimary | SupportsPrimaryOnly | SupportsStrongFallback
    | SupportsRequired | SupportsRequiredOnly | SupportsStrongRequired | UnevaluableEndpoint
    | ExcludedAborted | ExcludedOperational | ExcludedMechanical

  datatype FlowEvidence = FlowEvidence(condition: Condition, delivery: Option<Delivery>, freshServer: bool, client: Client,
                                       pfValid: bool, pfEnforced: bool, pfRose: bool, catalogued: bool, realIp: bool,
                                       pairingErrors: bool, integrityErrors: bool)

  predicate HttpVersion(protocol: string) {
    |protocol| >= 5 && protocol[..5] == "HTTP/"
  }

  function ClassifyTrial(e: FlowEvidence): Acceptance {
    if e.integrityErrors || e.pairingErrors then ExcludedAmbiguous
    else if e.delivery.None? then ObservedNonSupporting
    else if e.realIp then SafetyStop
    else if e.client.direct != [] then ExcludedBypass
    else if !e.catalogued then ExcludedAmbiguous
    else if OverQuic(e.delivery.value) then
      if !e.freshServer then ExcludedAmbiguous
      else if e.condition == Blocked then
        if e.client.udpFailover then SupportsPrimaryOnly
        else if e.pfEnforced && e.client.unambiguousFallback then SupportsStrongFallback
        else SupportsPrimaryOnly
      else SupportsPrimary
    else if HttpVersion(e.delivery.value.protocol) then ObservedNonSupporting
    else ExcludedAmbiguous
  }

  function ClassifyRequired(e: FlowEvidence, gateValid: bool): Acceptance {
    if !gateValid || e.integrityErrors || e.pairingErrors then ExcludedAmbiguous
    else if e.delivery.None? then ObservedNonSupporting
    else if e.realIp then SafetyStop
    else if e.client.direct != [] then ExcludedBypass
    else if !e.catalogued || !OverQuic(e.delivery.value) || !e.freshServer then ExcludedAmbiguous
    else if e.condition == Permitted then
      if e.client.outer != Only(Udp) || e.client.udpFailover then ObservedNonSupporting else SupportsRequired
    else if e.client.udpFailover then SupportsRequiredOnly
    else if !e.pfValid || !e.pfRose then UnevaluableEndpoint
    else if e.pfEnforced && e.client.unambiguousFallback then SupportsStrongRequired
    else ObservedNonSupporting
  }

  datatype Outcome = Succeeded | AlternativeIngress | DirectBypass | TimedOut | RelayUnavailable | ManyConnections
    | Aborted | CompletionTimeout | MechanicalFailure | PrepareError | OtherOutcome

  datatype Lifecycle = Lifecycle(outcome: Outcome, conditionChanged: bool, cleanupValid: bool, deadlineMissed: bool)

  predicate Supportive(o: Outcome) {
    o == Succeeded || o == AlternativeIngress
  }

  function GateAcceptance(a: Acceptance, l: Lifecycle): Acceptance {
    if l.outcome == DirectBypass then SafetyStop
    else if a == ExcludedAmbiguous || a == ExcludedBypass || a == SafetyStop then a
    else if Supportive(l.outcome) && !l.cleanupValid then ExcludedAmbiguous
    else if l.conditionChanged then ExcludedAmbiguous
    else if l.deadlineMissed || l.outcome == TimedOut then ObservedNonSupporting
    else match l.outcome
      case RelayUnavailable => ObservedNonSupporting
      case ManyConnections => ExcludedAmbiguous
      case Aborted => ExcludedAborted
      case CompletionTimeout => ExcludedOperational
      case MechanicalFailure => ExcludedMechanical
      case PrepareError => ExcludedMechanical
      case OtherOutcome => ExcludedAmbiguous
      case _ => a
  }

  predicate Positive(a: Acceptance) {
    a == SupportsPrimary || a == SupportsPrimaryOnly || a == SupportsStrongFallback
    || a == SupportsRequired || a == SupportsRequiredOnly || a == SupportsStrongRequired
  }

  predicate CleanLifecycle(l: Lifecycle) {
    Supportive(l.outcome) && l.cleanupValid && !l.conditionChanged && !l.deadlineMissed
  }

  /** The gate passes a positive finding unchanged from a clean lifecycle, and makes none. */
  lemma GateNeverPromotes(a: Acceptance, l: Lifecycle)
    ensures Positive(GateAcceptance(a, l)) <==> Positive(a) && CleanLifecycle(l)
    ensures Positive(GateAcceptance(a, l)) ==> GateAcceptance(a, l) == a
  {
  }

  // ---------- A whole attempt ----------

  /** What was verified and recorded for one attempt. `otherErrors` stands for every
      integrity or pairing refusal whose check is not modelled. */
  datatype Attempt = Attempt(condition: Condition, gated: bool, gateValid: bool, otherErrors: bool,
                             delivery: Option<Delivery>, start: int, end: int, deadline: int,
                             packets: seq<Packet>, candidates: set<int>, origin: int, intended: int,
                             hostnames: map<int, seq<string>>, reset: int, filterReset: int,
                             serverPackets: seq<Packet>, privateIp: int, realIp: int, feed: seq<FeedRow>,
                             firewall: Firewall, expected: RuleText, outcome: Outcome, conditionChanged: bool, cleanupValid: bool)

  predicate ResetInTime(a: Attempt) {
    a.reset <= a.end && (a.condition == Blocked ==> a.filterReset <= a.reset)
  }

  function AttributionScope(a: Attempt): Scope {
    Scope(a.candidates, a.origin, a.intended, a.hostnames,
          Window(Some(a.reset), Some(if a.delivery.Some? then a.delivery.value.time else a.end)))
  }

  /** The gathered evidence means what it is taken to mean. */
  ghost predicate EvidenceSays(e: FlowEvidence, a: Attempt) {
    && e.condition == a.condition && e.delivery == a.delivery
    && (e.delivery.Some? ==>
          && (e.freshServer <==> FreshSetup(a.serverPackets, a.delivery.value, a.privateIp, a.start, a.end))
          && (e.catalogued <==> UniqueLongest(a.feed, a.delivery.value.remoteIp)))
    && (e.realIp <==> a.delivery.Some? && a.delivery.value.remoteIp == a.realIp)
    && (e.pairingErrors <==> a.delivery.Some? && !(a.start <= a.delivery.value.time <= a.end))
    && (e.pfValid <==> CountersValid(a.condition, a.firewall, a.expected))
    && (e.pfEnforced <==> Enforced(a.condition, a.firewall, a.expected))
    && (e.pfRose <==> Rose(a.firewall))
    && (e.integrityErrors <==> a.otherErrors || a.condition == OtherCondition || (a.gated && !a.gateValid)
                               || !ResetInTime(a) || !e.pfValid)
    && (ResetInTime(a) ==>
          && (e.client.unambiguousFallback <==> OneFlow(a))
          && (e.client.udpFailover <==> Failover(a.packets, AttributionScope(a)))
          && (e.client.outer == Only(Udp) <==> OnlyUdp(a))
          && (e.client.direct == [] <==> NoDirectOrigin(a)))
  }

  /** Connections over UDP are attributed, and none over TCP. */
  ghost predicate OnlyUdp(a: Attempt) {
    Attempted(a.packets, AttributionScope(a), Udp) && !Attempted(a.packets, AttributionScope(a), Tcp)
  }

  ghost predicate NoDirectOrigin(a: Attempt) {
    forall p :: p in a.packets ==> !DirectOrigin(p, AttributionScope(a))
  }

  method ClientEvidence(a: Attempt) returns (client: Client)
    ensures ResetInTime(a) ==>
              && (client.unambiguousFallback <==> OneFlow(a))
              && (client.udpFailover <==> Failover(a.packets, AttributionScope(a)))
              && (client.outer == Only(Udp) <==> OnlyUdp(a))
              && (client.direct == [] <==> NoDirectOrigin(a))
  {
    hide EstablishedFlow, Failover, DirectOrigin, OneFlow, Attempted, ContactsOf;
    if !ResetInTime(a) {
      return NO_CLIENT;
    }
    client := ClientContacts(a.packets, AttributionScope(a));
    SingleFlow(client.flows, a);
  }

  method ServerEvidence(a: Attempt, d: Delivery) returns (fresh_: bool, catalogued: bool)
    ensures fresh_ <==> FreshSetup(a.serverPackets, d, a.privateIp, a.start, a.end)
    ensures catalogued <==> UniqueLongest(a.feed, d.remoteIp)
  {
    hide FreshSetup, UniqueLongest, OnlyLongest;
    fresh_ := ServerFlowEvidence(a.serverPackets, d, a.privateIp, a.start, a.end);
    var row := CatalogueMatch(d.remoteIp, a.feed);
    UniqueLongestMatch(a.feed, d.remoteIp, row);
    catalogued := row.Some?;
  }

  method GatherEvidence(a: Attempt) returns (e: FlowEvidence)
    ensures EvidenceSays(e, a)
  {
    hide FreshSetup, OneFlow, OnlyUdp, Failover, NoDirectOrigin, UniqueLongest, CountersValid, Enforced, ResetInTime;
    var fresh_, catalogued, realIp, outside := false, false, false, false;
    if a.delivery.Some? {
      var d := a.delivery.value;
      fresh_, catalogued := ServerEvidence(a, d);
      realIp, outside := d.remoteIp == a.realIp, !(a.start <= d.time <= a.end);
    }
    var client := ClientEvidence(a);
    var valid, f := CountersValid(a.condition, a.firewall, a.expected), a.firewall;
    var integrity := a.otherErrors || a.condition == OtherCondition || (a.gated && !a.gateValid) || !ResetInTime(a) || !valid;
    e := FlowEvidence(a.condition, a.delivery, fresh_, client, valid, Enforced(a.condition, f, a.expected),
                      f.before.Some? && f.after.Some? && f.before.value < f.after.value, catalogued, realIp, outside, integrity);
  }

  function Classify(e: FlowEvidence, a: Attempt): Acceptance {
    if a.gated then ClassifyRequired(e, a.gateValid) else ClassifyTrial(e)
  }

  function LifecycleOf(a: Attempt): Lifecycle {
    Lifecycle(a.outcome, a.conditionChanged, a.cleanupValid, a.delivery.Some? && a.deadline < a.delivery.value.time)
  }

  /** Right evidence, classified and gated, gives the one verdict the attempt warrants. */
  lemma ClassificationWarranted(e: FlowEvidence, a: Attempt)
    requires EvidenceSays(e, a)
    ensures Warrants(a, GateAcceptance(Classify(e, a), LifecycleOf(a)))
  {
    hide FreshSetup, OneFlow, OnlyUdp, Failover, NoDirectOrigin, UniqueLongest, CountersValid, ResetInTime;
  }

  /** Classifies one attempt and gates the result by its lifecycle. */
  method PairAttempt(a: Attempt) returns (acceptance: Acceptance)
    ensures forall v :: Warrants(a, v) <==> v == acceptance
  {
    hide EvidenceSays, Warrants, GateAcceptance, Classify, LifecycleOf;
    var e := GatherEvidence(a);
    acceptance := GateAcceptance(Classify(e, a), LifecycleOf(a));
    ClassificationWarranted(e, a);
    forall v | Warrants(a, v) ensures v == acceptance {
      OneVerdict(a, v, acceptance);
    }
  }

  ghost predicate UniqueLongest(feed: seq<FeedRow>, address: int) {
    var a := Address(false, address);
    exists r :: Longest(feed, a, r) && forall s :: Longest(feed, a, s) ==> s == r
  }

  lemma UniqueLongestMatch(feed: seq<FeedRow>, address: int, row: Option<FeedRow>)
    requires OnlyLongest(feed, Address(false, address), row)
    ensures row.Some? <==> UniqueLongest(feed, address)
  {
  }

  /** Exactly one flow completed an outer TCP handshake. */
  ghost predicate OneFlow(a: Attempt) {
    exists f :: EstablishedFlow(a.packets, AttributionScope(a), f)
                && forall g :: EstablishedFlow(a.packets, AttributionScope(a), g) ==> g == f
  }

  lemma SingleFlow(flows: set<Flow>, a: Attempt)
    requires forall f :: f in flows <==> EstablishedFlow(a.packets, AttributionScope(a), f)
    ensures |flows| == 1 <==> OneFlow(a)
  {
    hide EstablishedFlow;
    if |flows| == 1 {
      var f :| f in flows;
      assert flows == {f} by {
        assert |flows - {f}| == 0;
      }
      assert EstablishedFlow(a.packets, AttributionScope(a), f);
      forall g | EstablishedFlow(a.packets, AttributionScope(a), g) ensures g == f {
        assert g in flows;
      }
    }
    if OneFlow(a) {
      var f :| EstablishedFlow(a.packets, AttributionScope(a), f)
               && forall g :: EstablishedFlow(a.packets, AttributionScope(a), g) ==> g == f;
      assert flows == {f};
    }
  }

  // ---------- The verdict an attempt warrants ----------

  /** No check has failed: the records are whole, the gate and the filter evidence are valid,
      and the delivery, if there is one, lies inside the attempt. */
  ghost predicate Intact(a: Attempt) {
    && !a.otherErrors && a.condition != OtherCondition && (a.gated ==> a.gateValid) && ResetInTime(a)
    && CountersValid(a.condition, a.firewall, a.expected)
    && (a.delivery.Some? ==> a.start <= a.delivery.value.time <= a.end)
  }

  ghost predicate FromOwnAddress(a: Attempt) {
    Intact(a) && a.delivery.Some? && a.delivery.value.remoteIp == a.realIp
  }

  ghost predicate ContactedOrigin(a: Attempt) {
    Intact(a) && a.delivery.Some? && a.delivery.value.remoteIp != a.realIp && !NoDirectOrigin(a)
  }

  /** Nothing was delivered, or something by a relay in a known way. */
  ghost predicate Relayed(a: Attempt) {
    a.delivery.Some? ==>
      var d := a.delivery.value;
      && d.remoteIp != a.realIp && NoDirectOrigin(a) && UniqueLongest(a.feed, d.remoteIp)
      && if OverQuic(d) then FreshSetup(a.serverPackets, d, a.privateIp, a.start, a.end)
         else !a.gated && HttpVersion(d.protocol)
  }

  /** The evidence can be read, and the attempt ran to its end under one condition. */
  ghost predicate Settled(a: Attempt) {
    a.outcome != DirectBypass && Intact(a) && Relayed(a) && !a.conditionChanged && (Supportive(a.outcome) ==> a.cleanupValid)
  }

  predicate Late(a: Attempt) {
    a.delivery.Some? && a.deadline < a.delivery.value.time
  }

  /** Every positive finding rests on this: one delivery in time from a catalogued egress that
      is not the client's own address, no contact to the origin, a fresh QUIC setup on the
      delivery's five-tuple, valid filter evidence and gate, and a clean lifecycle. */
  ghost predicate SoundDelivery(a: Attempt) {
    && Intact(a) && a.delivery.Some?
    && var d := a.delivery.value;
    && d.time <= a.deadline && OverQuic(d) && d.remoteIp != a.realIp
    && UniqueLongest(a.feed, d.remoteIp)
    && FreshSetup(a.serverPackets, d, a.privateIp, a.start, a.end)
    && NoDirectOrigin(a)
    && Supportive(a.outcome) && a.cleanupValid && !a.conditionChanged
  }

  /** The strong finding adds: UDP blocked by the exact rule with a rising counter, exactly one
      completed outer TCP flow between the reset and the delivery, and no QUIC elsewhere. */
  ghost predicate StrongProof(a: Attempt) {
    && SoundDelivery(a) && a.condition == Blocked && Enforced(a.condition, a.firewall, a.expected)
    && OneFlow(a) && !AlternativeQuic(a)
  }

  ghost predicate AlternativeQuic(a: Attempt) {
    Failover(a.packets, AttributionScope(a))
  }

  /** A completed delivery, or none, that shows nothing. */
  ghost predicate ShowsNothing(a: Attempt) {
    || a.delivery.None? || !OverQuic(a.delivery.value)
    || (a.gated && if a.condition == Permitted then !OnlyUdp(a) || AlternativeQuic(a)
                   else !AlternativeQuic(a) && Rose(a.firewall) && !OneFlow(a))
  }

  /** What is attributed: the setup of an HTTPS connection to a named candidate other than the
      origin, between the reset and the delivery, or without one the attempt's end. */
  lemma AttributedMeans(a: Attempt, p: Packet, kind: Transport)
    ensures Attributable(p, kind, AttributionScope(a)) <==>
              && p.dst.Some? && p.dst.value in a.candidates && p.dst.value != a.origin
              && p.dst.value in a.hostnames && a.hostnames[p.dst.value] != []
              && p.time.Some? && a.reset <= p.time.value <= (if a.delivery.Some? then a.delivery.value.time else a.end)
              && p.dstPort == Some(443)
              && match kind
                 case Tcp => p.transport == Tcp && p.syn && !p.ack
                 case Udp => p.transport == Udp && p.initial && p.dcid != ""
                 case Unknown => false
    ensures DirectOrigin(p, AttributionScope(a)) <==> p.dst == Some(a.origin) && p.dstPort == Some(443)
  {
  }

  /** When each verdict is right. */
  ghost predicate Warrants(a: Attempt, v: Acceptance) {
    match v
    case SafetyStop => a.outcome == DirectBypass || FromOwnAddress(a)
    case ExcludedBypass => a.outcome != DirectBypass && ContactedOrigin(a)
    case ExcludedAmbiguous =>
      && a.outcome != DirectBypass && !FromOwnAddress(a) && !ContactedOrigin(a)
      && (!Settled(a) || (!Late(a) && a.outcome in {ManyConnections, OtherOutcome}))
    case ExcludedAborted => Settled(a) && !Late(a) && a.outcome == Aborted
    case ExcludedOperational => Settled(a) && !Late(a) && a.outcome == CompletionTimeout
    case ExcludedMechanical => Settled(a) && !Late(a) && a.outcome in {MechanicalFailure, PrepareError}
    case ObservedNonSupporting =>
      Settled(a) && (Late(a) || a.outcome in {TimedOut, RelayUnavailable} || (Supportive(a.outcome) && ShowsNothing(a)))
    case SupportsPrimary => !a.gated && SoundDelivery(a) && a.condition == Permitted
    case SupportsPrimaryOnly => !a.gated && SoundDelivery(a) && a.condition == Blocked && !StrongProof(a)
    case SupportsStrongFallback => !a.gated && StrongProof(a)
    case SupportsRequired =>
      a.gated && SoundDelivery(a) && a.condition == Permitted && OnlyUdp(a) && !AlternativeQuic(a)
    case SupportsRequiredOnly => a.gated && SoundDelivery(a) && a.condition == Blocked && AlternativeQuic(a)
    case UnevaluableEndpoint =>
      a.gated && SoundDelivery(a) && a.condition == Blocked && !AlternativeQuic(a) && !Rose(a.firewall)
    case SupportsStrongRequired => a.gated && StrongProof(a)
  }

  /** No attempt warrants two verdicts. */
  lemma OneVerdict(a: Attempt, v: Acceptance, w: Acceptance)
    requires Warrants(a, v) && Warrants(a, w)
    ensures v == w
  {
    hide FreshSetup, OneFlow, OnlyUdp, AlternativeQuic, NoDirectOrigin, UniqueLongest, Mentions, Chronological, ResetInTime;
  }
}
