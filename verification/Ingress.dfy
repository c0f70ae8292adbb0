/** Attributing a run to an ingress address from captured client packets. */
module Ingress {
  import opened Wrappers
  import opened Counting

  datatype Transport = Tcp | Udp | Other

  datatype Packet = Packet(time: Option<int>, transport: Transport, src: string, srcPort: int, dst: string, dstPort: int,
                           tcpSyn: bool, tcpAck: bool, tcpLen: int, udpLength: int, quicInitial: bool, frame: nat)

  /** The five-tuple of a contact; the destination port is always 443. */
  datatype Key = Key(transport: Transport, src: string, srcPort: int, dst: string)

  datatype Window = Window(start: int, end: int)

  function KeyOf(p: Packet): Key {
    Key(p.transport, p.src, p.srcPort, p.dst)
  }

  /** Any payload or setup sent to a candidate inside the window. */
  predicate Contacts(p: Packet, candidates: set<string>, w: Window) {
    && p.time.Some? && w.start <= p.time.value <= w.end
    && p.dst in candidates && p.dstPort == 443
    && ((p.transport == Tcp && (p.tcpSyn || p.tcpLen > 0)) || (p.transport == Udp && p.udpLength > 8))
  }

  /** A new handshake: a client SYN without ACK, or a QUIC Initial. */
  predicate FreshSetup(p: Packet) {
    (p.transport == Tcp && p.tcpSyn && !p.tcpAck) || (p.transport == Udp && p.quicInitial)
  }

  ghost function ContactKeys(packets: seq<Packet>, candidates: set<string>, w: Window): set<Key> {
    set p | p in packets && Contacts(p, candidates, w) :: KeyOf(p)
  }

  ghost function FreshKeys(packets: seq<Packet>, candidates: set<string>, w: Window): set<Key> {
    set p | p in packets && Contacts(p, candidates, w) && FreshSetup(p) :: KeyOf(p)
  }

  predicate Seen(p: Packet, candidates: set<string>, w: Window, setupOnly: bool, k: Key) {
    Contacts(p, candidates, w) && (setupOnly ==> FreshSetup(p)) && KeyOf(p) == k
  }

  /** `p` is the first packet that stands for the key. */
  ghost predicate FirstSeen(p: Packet, packets: seq<Packet>, candidates: set<string>, w: Window, setupOnly: bool, k: Key) {
    exists i :: 0 <= i < |packets| && packets[i] == p && Seen(packets[i], candidates, w, setupOnly, k)
                && forall j :: 0 <= j < i ==> !Seen(packets[j], candidates, w, setupOnly, k)
  }

  /** Every key seen, and no other, with its first packet. */
  ghost predicate Represented(found: map<Key, Packet>, packets: seq<Packet>, candidates: set<string>, w: Window, setupOnly: bool) {
    && (forall k :: k in found ==> FirstSeen(found[k], packets, candidates, w, setupOnly, k))
    && (forall i :: 0 <= i < |packets| && Contacts(packets[i], candidates, w) && (setupOnly ==> FreshSetup(packets[i])) ==>
          KeyOf(packets[i]) in found)
  }

  lemma RepresentOne(found: map<Key, Packet>, packets: seq<Packet>, p: Packet, candidates: set<string>, w: Window, setupOnly: bool)
    requires Represented(found, packets, candidates, w, setupOnly)
    ensures var added := Contacts(p, candidates, w) && (setupOnly ==> FreshSetup(p)) && KeyOf(p) !in found;
            Represented(if added then found[KeyOf(p) := p] else found, packets + [p], candidates, w, setupOnly)
  {
    hide Contacts, FreshSetup;
    var added := Contacts(p, candidates, w) && (setupOnly ==> FreshSetup(p)) && KeyOf(p) !in found;
    var all := packets + [p];
    assert forall i :: 0 <= i < |packets| ==> all[i] == packets[i];
    forall k | k in found ensures FirstSeen(found[k], all, candidates, w, setupOnly, k) {
      var i :| 0 <= i < |packets| && packets[i] == found[k] && Seen(packets[i], candidates, w, setupOnly, k)
               && forall j :: 0 <= j < i ==> !Seen(packets[j], candidates, w, setupOnly, k);
      assert all[i] == found[k];
    }
    if added {
      assert all[|packets|] == p && Seen(all[|packets|], candidates, w, setupOnly, KeyOf(p));
      assert FirstSeen(p, all, candidates, w, setupOnly, KeyOf(p));
    }
  }

  lemma RepresentedKeys(found: map<Key, Packet>, packets: seq<Packet>, candidates: set<string>, w: Window)
    ensures Represented(found, packets, candidates, w, false) ==> found.Keys == ContactKeys(packets, candidates, w)
    ensures Represented(found, packets, candidates, w, true) ==> found.Keys == FreshKeys(packets, candidates, w)
  {
  }

  /** The packet loop: the first packet of each five-tuple stands for the contact. */
  method ClientIngress(packets: seq<Packet>, candidates: set<string>, w: Window)
    returns (contacts: map<Key, Packet>, setups: map<Key, Packet>)
    ensures Represented(contacts, packets, candidates, w, false)
    ensures Represented(setups, packets, candidates, w, true)
    ensures contacts.Keys == ContactKeys(packets, candidates, w)
    ensures setups.Keys == FreshKeys(packets, candidates, w)
  {
    hide Contacts, FreshSetup, FirstSeen, ContactKeys, FreshKeys;
    contacts, setups := map[], map[];
    for i := 0 to |packets|
      invariant Represented(contacts, packets[..i], candidates, w, false)
      invariant Represented(setups, packets[..i], candidates, w, true)
    {
      var p := packets[i];
      assert packets[..i + 1] == packets[..i] + [p];
      RepresentOne(contacts, packets[..i], p, candidates, w, false);
      RepresentOne(setups, packets[..i], p, candidates, w, true);
      if !Contacts(p, candidates, w) {
        continue;
      }
      if KeyOf(p) !in contacts {
        contacts := contacts[KeyOf(p) := p];
      }
      if FreshSetup(p) && KeyOf(p) !in setups {
        setups := setups[KeyOf(p) := p];
      }
    }
    assert packets[..|packets|] == packets;
    RepresentedKeys(contacts, packets, candidates, w);
    RepresentedKeys(setups, packets, candidates, w);
  }

  // ---------- Candidates directly justified for the attempt ----------

  datatype Metadata = Metadata(intended: Option<string>, approved: set<string>, resolved: set<string>,
                               effective: set<string>, hostnameAnswers: set<string>)

  function CaptureCandidates(m: Metadata): set<string> {
    m.approved + if m.intended.Some? then {m.intended.value} else {}
  }

  function BoundedCandidates(m: Metadata): set<string> {
    if m.intended.Some? then {m.intended.value}
    else
      var direct := m.resolved + m.effective + m.hostnameAnswers;
      if direct != {} then direct else m.approved
  }

  // ---------- The attribution decision ----------

  datatype Policy = FreshHandshake | BoundedCandidate | LegacyCandidate | Unknown

  /** `observed` is the first attributable contact in sorted order. */
  datatype Decision = Decision(observed: Option<Key>, wrongOrUnknown: bool)

  type Order = (Key, Key) -> bool

  /** The sort order of five-tuples is some strict total order. */
  ghost predicate SortOrder(before: Order) {
    && (forall a, b :: before(a, b) ==> !before(b, a))
    && (forall a, b :: a != b ==> before(a, b) || before(b, a))
    && (forall a, b, c :: before(a, b) && before(b, c) ==> before(a, c))
  }

  // Text is compared character by character, a five-tuple component by component.

  predicate TextBefore(s: string, t: string) {
    t != [] && (s == [] || s[0] < t[0] || (s[0] == t[0] && TextBefore(s[1..], t[1..])))
  }

  function Rank(t: Transport): nat {
    match t
    case Tcp => 0
    case Udp => 1
    case Other => 2
  }

  predicate TupleBefore(a: Key, b: Key) {
    || Rank(a.transport) < Rank(b.transport)
    || (a.transport == b.transport
        && (TextBefore(a.src, b.src)
            || (a.src == b.src && (a.srcPort < b.srcPort || (a.srcPort == b.srcPort && TextBefore(a.dst, b.dst))))))
  }

  lemma {:induction false} TextTotal(s: string, t: string)
    ensures TextBefore(s, t) ==> !TextBefore(t, s)
    ensures s != t ==> TextBefore(s, t) || TextBefore(t, s)
  {
    if s != [] && t != [] {
      TextTotal(s[1..], t[1..]);
      assert s == [s[0]] + s[1..] && t == [t[0]] + t[1..];
    }
  }

  lemma {:induction false} TextTransitive(s: string, t: string, u: string)
    requires TextBefore(s, t) && TextBefore(t, u)
    ensures TextBefore(s, u)
  {
    if s != [] && s[0] == t[0] == u[0] {
      TextTransitive(s[1..], t[1..], u[1..]);
    }
  }

  /** The order in which the contacts are sorted is such an order. */
  lemma TupleOrderSorts()
    ensures SortOrder(TupleBefore)
  {
    forall a, b ensures TupleBefore(a, b) ==> !TupleBefore(b, a) {
      TextTotal(a.src, b.src);
      TextTotal(a.dst, b.dst);
    }
    forall a, b ensures a != b ==> TupleBefore(a, b) || TupleBefore(b, a) {
      TextTotal(a.src, b.src);
      TextTotal(a.dst, b.dst);
    }
    forall a, b, c | TupleBefore(a, b) && TupleBefore(b, c) ensures TupleBefore(a, c) {
      if TextBefore(a.src, b.src) && TextBefore(b.src, c.src) {
        TextTransitive(a.src, b.src, c.src);
      }
      if TextBefore(a.dst, b.dst) && TextBefore(b.dst, c.dst) {
        TextTransitive(a.dst, b.dst, c.dst);
      }
    }
  }

  ghost predicate IsFirst(k: Key, keys: set<Key>, before: Order) {
    k in keys && forall j :: j in keys && j != k ==> before(k, j)
  }

  function Addresses(keys: set<Key>): set<string> {
    set k | k in keys :: k.dst
  }

  function Transports(keys: set<Key>): set<Transport> {
    set k | k in keys :: k.transport
  }

  function Within(keys: set<Key>, ips: set<string>): set<Key> {
    set k | k in keys && k.dst in ips
  }

  /** The contacts the policy attributes the run to. */
  function Attributed(contacts: set<Key>, setups: set<Key>, bounded: set<string>, policy: Policy): set<Key> {
    match policy
    case FreshHandshake => Within(setups, bounded)
    case BoundedCandidate =>
      if |Addresses(Within(setups, bounded))| == 1 then Within(setups, bounded) else Within(contacts, bounded)
    case LegacyCandidate => contacts
    case Unknown => {}
  }

  /** Among contacts to one address: the TCP ones of a fallback run, otherwise all if they
      share a transport. */
  function Attributable(keys: set<Key>, fallback: bool): set<Key> {
    if |Addresses(keys)| != 1 then {}
    else if fallback then set k | k in keys && k.transport == Tcp
    else if |Transports(keys)| == 1 then keys
    else {}
  }

  ghost predicate Decides(d: Decision, contacts: set<Key>, setups: set<Key>, m: Metadata, policy: Policy, fallback: bool, before: Order) {
    var chosen := Attributable(Attributed(contacts, setups, BoundedCandidates(m), policy), fallback);
    && (if chosen == {} then d.observed.None? else d.observed.Some? && IsFirst(d.observed.value, chosen, before))
    && (d.wrongOrUnknown <==> d.observed.None? || (m.intended.Some? && d.observed.value.dst != m.intended.value))
  }

  /** What a captured packet list means for the run. */
  ghost predicate Outcome(d: Decision, packets: seq<Packet>, m: Metadata, w: Window, policy: Policy, fallback: bool, before: Order) {
    Decides(d, ContactKeys(packets, CaptureCandidates(m), w), FreshKeys(packets, CaptureCandidates(m), w), m, policy, fallback, before)
  }

  lemma {:induction false} FirstExists(keys: set<Key>, before: Order) returns (k: Key)
    requires keys != {} && SortOrder(before)
    ensures IsFirst(k, keys, before)
  {
    var y := AnyOf(keys);
    if keys == {y} {
      k := y;
    } else {
      var first := FirstExists(keys - {y}, before);
      k := if before(y, first) then y else first;
      forall j | j in keys && j != k ensures before(k, j) {
        assert j == y || j in keys - {y};
      }
    }
  }

  method FirstKey(keys: set<Key>, before: Order) returns (k: Key)
    requires keys != {} && SortOrder(before)
    ensures IsFirst(k, keys, before)
  {
    var first := FirstExists(keys, before);
    k :| k in keys && forall j :: j in keys && j != k ==> before(k, j);
  }

  method AttributeRun(packets: seq<Packet>, m: Metadata, w: Window, policy: Policy, fallback: bool, before: Order)
    returns (d: Decision)
    requires SortOrder(before)
    ensures Outcome(d, packets, m, w, policy, fallback, before)
    ensures policy == FreshHandshake ==> ObservedFrom(d.observed, BoundedSetups(packets, m, w), fallback, before)
    ensures policy == BoundedCandidate ==>
              if ToOneAddress(BoundedSetups(packets, m, w)) then
                ObservedFrom(d.observed, BoundedSetups(packets, m, w), fallback, before)
              else
                ObservedFrom(d.observed, BoundedContacts(packets, m, w), fallback, before)
    ensures policy == LegacyCandidate ==> ObservedFrom(d.observed, AllContacts(packets, m, w), fallback, before)
    ensures policy == Unknown ==> d.observed.None?
    ensures d.wrongOrUnknown <==> d.observed.None? || (m.intended.Some? && d.observed.value.dst != m.intended.value)
  {
    d := Decide(packets, m, w, policy, fallback, before);
    PoliciesOnPackets(d, packets, m, w, policy, fallback, before);
  }

  method Decide(packets: seq<Packet>, m: Metadata, w: Window, policy: Policy, fallback: bool, before: Order)
    returns (d: Decision)
    requires SortOrder(before)
    ensures Outcome(d, packets, m, w, policy, fallback, before)
  {
    var contacts, setups := ClientIngress(packets, CaptureCandidates(m), w);
    var attributed := Attributed(contacts.Keys, setups.Keys, BoundedCandidates(m), policy);
    var chosen := Attributable(attributed, fallback);
    if chosen == {} {
      return Decision(None, true);
    }
    var k := FirstKey(chosen, before);
    d := Decision(Some(k), m.intended.Some? && k.dst != m.intended.value);
  }

  // ---------- The decision in terms of packets ----------

  ghost predicate KeysOf(keys: set<Key>, candidates: set<string>) {
    forall k :: k in keys ==> k.dst in candidates && (k.transport == Tcp || k.transport == Udp)
  }

  lemma OneAddress(keys: set<Key>, k: Key)
    requires k in keys && forall j :: j in keys ==> j.dst == k.dst
    ensures Addresses(keys) == {k.dst}
  {
  }

  lemma TwoAddresses(keys: set<Key>, j: Key, k: Key)
    requires j in keys && k in keys && j.dst != k.dst
    ensures |Addresses(keys)| > 1
  {
    assert {j.dst, k.dst} <= Addresses(keys);
    SubsetSize({j.dst, k.dst}, Addresses(keys));
  }

  lemma AddressesSplit(keys: set<Key>)
    ensures |Addresses(keys)| == 0 <==> keys == {}
    ensures |Addresses(keys)| == 1 ==> forall j, k :: j in keys && k in keys ==> j.dst == k.dst
    ensures |Addresses(keys)| > 1 ==> exists j, k :: j in keys && k in keys && j.dst != k.dst
  {
    if k :| k in keys {
      assert k.dst in Addresses(keys);
      if forall j :: j in keys ==> j.dst == k.dst {
        OneAddress(keys, k);
      } else {
        var j :| j in keys && j.dst != k.dst;
        TwoAddresses(keys, j, k);
      }
    }
  }

  lemma TransportsSplit(keys: set<Key>, candidates: set<string>)
    requires KeysOf(keys, candidates) && keys != {}
    ensures |Transports(keys)| == 1 || |Transports(keys)| == 2
    ensures |Transports(keys)| == 2 <==> Transports(keys) == {Tcp, Udp}
  {
    var k :| k in keys;
    assert k.transport in Transports(keys);
    if Tcp in Transports(keys) && Udp in Transports(keys) {
      assert Transports(keys) == {Tcp, Udp};
    } else {
      assert Transports(keys) == {k.transport};
    }
  }

  /** The packets that contact a bounded address. */
  ghost function BoundedContacts(packets: seq<Packet>, m: Metadata, w: Window): set<Packet> {
    set p | p in packets && Contacts(p, CaptureCandidates(m), w) && p.dst in BoundedCandidates(m)
  }

  /** Those of them that set up a connection. */
  ghost function BoundedSetups(packets: seq<Packet>, m: Metadata, w: Window): set<Packet> {
    set p | p in packets && Contacts(p, CaptureCandidates(m), w) && p.dst in BoundedCandidates(m) && FreshSetup(p)
  }

  ghost function AllContacts(packets: seq<Packet>, m: Metadata, w: Window): set<Packet> {
    set p | p in packets && Contacts(p, CaptureCandidates(m), w)
  }

  ghost predicate ToOneAddress(sent: set<Packet>) {
    sent != {} && forall p, q :: p in sent && q in sent ==> p.dst == q.dst
  }

  /** One address, and in a fallback run some TCP, otherwise one transport. */
  ghost predicate Decidable(sent: set<Packet>, fallback: bool) {
    && ToOneAddress(sent)
    && if fallback then exists p :: p in sent && p.transport == Tcp
       else forall p, q :: p in sent && q in sent ==> p.transport == q.transport
  }

  /** The first five-tuple of these packets, of the TCP ones in a fallback run. */
  ghost predicate FirstSent(k: Key, sent: set<Packet>, fallback: bool, before: Order) {
    && (exists p :: p in sent && KeyOf(p) == k && (fallback ==> p.transport == Tcp))
    && forall q :: q in sent && KeyOf(q) != k && (fallback ==> q.transport == Tcp) ==> before(k, KeyOf(q))
  }

  /** An ingress is observed exactly when the packets decide it, and then it is the first. */
  ghost predicate ObservedFrom(observed: Option<Key>, sent: set<Packet>, fallback: bool, before: Order) {
    && (observed.Some? <==> Decidable(sent, fallback))
    && (observed.Some? ==> FirstSent(observed.value, sent, fallback, before))
  }

  ghost predicate KeysSent(keys: set<Key>, sent: set<Packet>) {
    && (forall p :: p in sent ==> KeyOf(p) in keys)
    && forall k :: k in keys ==> exists p :: p in sent && KeyOf(p) == k
  }

  lemma OneAddressSent(keys: set<Key>, sent: set<Packet>)
    requires KeysSent(keys, sent)
    ensures |Addresses(keys)| == 1 <==> ToOneAddress(sent)
  {
    AddressesSplit(keys);
    if ToOneAddress(sent) {
      var p :| p in sent;
      assert forall k :: k in keys ==> k.dst == p.dst;
      OneAddress(keys, KeyOf(p));
    } else if p :| p in sent {
      var q, r :| q in sent && r in sent && q.dst != r.dst;
      assert KeyOf(q) in keys && KeyOf(r) in keys;
    }
  }

  lemma OneTransportSent(keys: set<Key>, sent: set<Packet>)
    requires KeysSent(keys, sent) && keys != {}
    ensures |Transports(keys)| == 1 <==> forall p, q :: p in sent && q in sent ==> p.transport == q.transport
  {
    if forall p, q :: p in sent && q in sent ==> p.transport == q.transport {
      var j :| j in keys;
      assert forall k :: k in keys ==> k.transport == j.transport;
      assert Transports(keys) == {j.transport};
    } else {
      var p, q :| p in sent && q in sent && p.transport != q.transport;
      TwoTransports(keys, KeyOf(p), KeyOf(q));
    }
  }

  lemma TwoTransports(keys: set<Key>, j: Key, k: Key)
    requires j in keys && k in keys && j.transport != k.transport
    ensures |Transports(keys)| > 1
  {
    assert {j.transport, k.transport} <= Transports(keys);
    SubsetSize({j.transport, k.transport}, Transports(keys));
  }

  /** Deciding on the five-tuples of packets is deciding on the packets. */
  lemma DecidedBySent(keys: set<Key>, sent: set<Packet>, candidates: set<string>, fallback: bool, before: Order, observed: Option<Key>)
    requires KeysSent(keys, sent) && KeysOf(keys, candidates)
    requires var chosen := Attributable(keys, fallback);
             if chosen == {} then observed.None? else observed.Some? && IsFirst(observed.value, chosen, before)
    ensures ObservedFrom(observed, sent, fallback, before)
  {
    OneAddressSent(keys, sent);
    if keys != {} {
      OneTransportSent(keys, sent);
      if ToOneAddress(sent) && fallback {
        if p :| p in sent && p.transport == Tcp {
          assert KeyOf(p) in Attributable(keys, fallback);
        } else {
          assert Attributable(keys, fallback) == {};
        }
      }
    }
  }

  /** What each policy observes, from the packets. */
  lemma PoliciesOnPackets(d: Decision, packets: seq<Packet>, m: Metadata, w: Window, policy: Policy, fallback: bool, before: Order)
    requires Outcome(d, packets, m, w, policy, fallback, before)
    ensures policy == FreshHandshake ==> ObservedFrom(d.observed, BoundedSetups(packets, m, w), fallback, before)
    ensures policy == BoundedCandidate ==>
              if ToOneAddress(BoundedSetups(packets, m, w)) then
                ObservedFrom(d.observed, BoundedSetups(packets, m, w), fallback, before)
              else
                ObservedFrom(d.observed, BoundedContacts(packets, m, w), fallback, before)
    ensures policy == LegacyCandidate ==> ObservedFrom(d.observed, AllContacts(packets, m, w), fallback, before)
    ensures policy == Unknown ==> d.observed.None?
    ensures d.wrongOrUnknown <==> d.observed.None? || (m.intended.Some? && d.observed.value.dst != m.intended.value)
  {
    hide Contacts, FreshSetup, ObservedFrom, Attributable, BoundedCandidates, CaptureCandidates, ToOneAddress;
    var c, b := CaptureCandidates(m), BoundedCandidates(m);
    var contacts, setups := ContactKeys(packets, c, w), FreshKeys(packets, c, w);
    ContactsSent(packets, m, w);
    OneAddressSent(Within(setups, b), BoundedSetups(packets, m, w));
    var attributed := Attributed(contacts, setups, b, policy);
    if attributed == contacts && policy == LegacyCandidate {
      DecidedBySent(attributed, AllContacts(packets, m, w), c, fallback, before, d.observed);
    } else if policy == FreshHandshake || (policy == BoundedCandidate && |Addresses(Within(setups, b))| == 1) {
      DecidedBySent(attributed, BoundedSetups(packets, m, w), c, fallback, before, d.observed);
    } else if policy == BoundedCandidate {
      DecidedBySent(attributed, BoundedContacts(packets, m, w), c, fallback, before, d.observed);
    } else {
      NothingAttributable(fallback);
    }
  }

  lemma NothingAttributable(fallback: bool)
    ensures Attributable({}, fallback) == {}
  {
    AddressesSplit({});
  }

  lemma ContactsSent(packets: seq<Packet>, m: Metadata, w: Window)
    ensures var c, b := CaptureCandidates(m), BoundedCandidates(m);
            var contacts, setups := ContactKeys(packets, c, w), FreshKeys(packets, c, w);
            && KeysOf(contacts, c) && KeysOf(setups, c)
            && KeysSent(contacts, AllContacts(packets, m, w))
            && KeysSent(Within(contacts, b), BoundedContacts(packets, m, w))
            && KeysSent(Within(setups, b), BoundedSetups(packets, m, w))
  {
    hide FreshSetup, BoundedCandidates, CaptureCandidates;
  }

  /** In a pinned run only the pin can be observed, and under the bounded policy it is exactly
      when what was sent to it decides: the setups if there are any, otherwise all contacts. */
  lemma PinnedRun(d: Decision, packets: seq<Packet>, m: Metadata, w: Window, fallback: bool, before: Order)
    requires m.intended.Some? && Outcome(d, packets, m, w, BoundedCandidate, fallback, before)
    ensures d.observed.Some? ==> d.observed.value.dst == m.intended.value
    ensures d.wrongOrUnknown <==> d.observed.None?
    ensures forall p :: p in BoundedContacts(packets, m, w) <==>
                          p in packets && p.dst == m.intended.value && Contacts(p, {p.dst}, w)
    ensures d.observed.Some? <==>
              var setups, contacts := BoundedSetups(packets, m, w), BoundedContacts(packets, m, w);
              var sent := if setups == {} then contacts else setups;
              sent != {} && if fallback then exists p :: p in sent && p.transport == Tcp
                            else forall p, q :: p in sent && q in sent ==> p.transport == q.transport
  {
    PoliciesOnPackets(d, packets, m, w, BoundedCandidate, fallback, before);
  }

  /** A bounded address is the pin, or in an unpinned run one that is directly evidenced, or
      any approved one when none is. */
  lemma BoundedBy(m: Metadata, a: string)
    ensures a in BoundedCandidates(m) <==>
              match m.intended
              case Some(pin) => a == pin
              case None => a in m.resolved || a in m.effective || a in m.hostnameAnswers
                           || (a in m.approved && m.resolved == m.effective == m.hostnameAnswers == {})
  {
    assert m.resolved <= m.resolved + m.effective + m.hostnameAnswers;
    assert m.effective <= m.resolved + m.effective + m.hostnameAnswers;
    assert m.hostnameAnswers <= m.resolved + m.effective + m.hostnameAnswers;
  }

  // ---------- Non-interference ----------

  lemma OutcomeUnique(d: Decision, e: Decision, contacts: set<Key>, contacts': set<Key>, setups: set<Key>, setups': set<Key>,
                      m: Metadata, policy: Policy, fallback: bool, before: Order)
    requires SortOrder(before)
    requires Decides(d, contacts, setups, m, policy, fallback, before)
    requires Decides(e, contacts', setups', m, policy, fallback, before)
    requires Attributed(contacts, setups, BoundedCandidates(m), policy) == Attributed(contacts', setups', BoundedCandidates(m), policy)
    ensures d == e
  {
  }

  /** `larger` arises from `packets` by inserting, anywhere, packets that are no fresh setup
      or go to an address outside the bounded set. */
  ghost predicate OnlyNoiseInserted(packets: seq<Packet>, larger: seq<Packet>, bounded: set<string>) {
    && (forall p :: p in packets ==> p in larger)
    && (forall p :: p in larger ==> p in packets || !FreshSetup(p) || p.dst !in bounded)
  }

  lemma NoiseKeepsBoundedFresh(packets: seq<Packet>, larger: seq<Packet>, candidates: set<string>, w: Window, bounded: set<string>)
    requires OnlyNoiseInserted(packets, larger, bounded)
    ensures Within(FreshKeys(larger, candidates, w), bounded) == Within(FreshKeys(packets, candidates, w), bounded)
  {
    var one, two := Within(FreshKeys(packets, candidates, w), bounded), Within(FreshKeys(larger, candidates, w), bounded);
    forall k | k in two ensures k in one {
      var p :| p in larger && Contacts(p, candidates, w) && FreshSetup(p) && KeyOf(p) == k;
    }
    forall k | k in one ensures k in two {
      var p :| p in packets && Contacts(p, candidates, w) && FreshSetup(p) && KeyOf(p) == k;
    }
  }

  /** Under the bounded-candidate policy, once exactly one bounded address saw a fresh
      handshake, background traffic changes neither the observed ingress, its transport and
      five-tuple, nor the wrong-ingress decision. */
  lemma BackgroundCannotInterfere(packets: seq<Packet>, larger: seq<Packet>, m: Metadata, w: Window, fallback: bool, before: Order,
                                  d: Decision, e: Decision)
    requires SortOrder(before) && OnlyNoiseInserted(packets, larger, BoundedCandidates(m))
    requires |Addresses(Within(FreshKeys(packets, CaptureCandidates(m), w), BoundedCandidates(m)))| == 1
    requires Outcome(d, packets, m, w, BoundedCandidate, fallback, before)
    requires Outcome(e, larger, m, w, BoundedCandidate, fallback, before)
    ensures d == e
  {
    NoiseKeepsBoundedFresh(packets, larger, CaptureCandidates(m), w, BoundedCandidates(m));
    OutcomeUnique(d, e, ContactKeys(packets, CaptureCandidates(m), w), ContactKeys(larger, CaptureCandidates(m), w),
                  FreshKeys(packets, CaptureCandidates(m), w), FreshKeys(larger, CaptureCandidates(m), w),
                  m, BoundedCandidate, fallback, before);
  }

  /** The fresh-handshake policy is immune whatever the number of fresh addresses. */
  lemma FreshPolicyImmune(packets: seq<Packet>, larger: seq<Packet>, m: Metadata, w: Window, fallback: bool, before: Order,
                          d: Decision, e: Decision)
    requires SortOrder(before) && OnlyNoiseInserted(packets, larger, BoundedCandidates(m))
    requires Outcome(d, packets, m, w, FreshHandshake, fallback, before)
    requires Outcome(e, larger, m, w, FreshHandshake, fallback, before)
    ensures d == e
  {
    NoiseKeepsBoundedFresh(packets, larger, CaptureCandidates(m), w, BoundedCandidates(m));
    OutcomeUnique(d, e, ContactKeys(packets, CaptureCandidates(m), w), ContactKeys(larger, CaptureCandidates(m), w),
                  FreshKeys(packets, CaptureCandidates(m), w), FreshKeys(larger, CaptureCandidates(m), w),
                  m, FreshHandshake, fallback, before);
  }

  // ---------- When the legacy policy is immune ----------

  /** No inserted background traffic can change the legacy decision. */
  ghost predicate LegacyImmune(packets: seq<Packet>, m: Metadata, w: Window, fallback: bool, before: Order) {
    forall larger, d, e ::
      (OnlyNoiseInserted(packets, larger, BoundedCandidates(m))
       && Outcome(d, packets, m, w, LegacyCandidate, fallback, before)
       && Outcome(e, larger, m, w, LegacyCandidate, fallback, before)) ==> d == e
  }

  /** The decision is already that the ingress is unknown, and stays it: two addresses were
      contacted, or without fallback one address over both transports. */
  predicate Undecidable(contacts: set<Key>, fallback: bool) {
    |Addresses(contacts)| > 1 || (!fallback && |Addresses(contacts)| == 1 && |Transports(contacts)| == 2)
  }

  /** Nothing can be added: no candidate or moment is captured at all, or a fallback run with
      a single candidate already observes the least five-tuple there is. */
  ghost predicate Saturated(contacts: set<Key>, candidates: set<string>, w: Window, fallback: bool, before: Order) {
    || w.end < w.start || candidates == {}
    || (fallback && |candidates| == 1
        && exists k :: k in contacts && k.transport == Tcp
                       && forall x: Key :: x.transport == Tcp && x.dst == k.dst && x != k ==> before(k, x))
  }

  /** More contacts keep an undecidable run undecidable. */
  lemma UndecidableGrows(keys: set<Key>, larger: set<Key>, candidates: set<string>, fallback: bool)
    requires KeysOf(larger, candidates) && keys <= larger && Undecidable(keys, fallback)
    ensures Undecidable(larger, fallback) && Attributable(larger, fallback) == {} == Attributable(keys, fallback)
  {
    AddressesSplit(keys);
    AddressesSplit(larger);
    if |Addresses(keys)| > 1 {
      var j, k :| j in keys && k in keys && j.dst != k.dst;
      TwoAddresses(larger, j, k);
    } else {
      TransportsSplit(keys, candidates);
      TransportsSplit(larger, candidates);
      assert Transports(keys) <= Transports(larger);
    }
  }

  /** In a saturated run of at most one candidate the observed ingress is the least key. */
  lemma LeastStays(keys: set<Key>, larger: set<Key>, candidates: set<string>, before: Order, k: Key, d: Option<Key>, e: Option<Key>)
    requires SortOrder(before) && KeysOf(larger, candidates) && keys <= larger && |candidates| == 1
    requires k in keys && k.transport == Tcp
    requires forall x: Key :: x.transport == Tcp && x.dst == k.dst && x != k ==> before(k, x)
    ensures k in Attributable(keys, true) && IsFirst(k, Attributable(keys, true), before)
    ensures k in Attributable(larger, true) && IsFirst(k, Attributable(larger, true), before)
  {
    forall j | j in larger ensures j.dst == k.dst {
      if j.dst != k.dst {
        assert {j.dst, k.dst} <= candidates;
        SubsetSize({j.dst, k.dst}, candidates);
      }
    }
    OneAddress(keys, k);
    OneAddress(larger, k);
  }

  lemma ShieldedIsImmune(packets: seq<Packet>, larger: seq<Packet>, m: Metadata, w: Window, fallback: bool, before: Order,
                         d: Decision, e: Decision)
    requires SortOrder(before) && OnlyNoiseInserted(packets, larger, BoundedCandidates(m))
    requires Outcome(d, packets, m, w, LegacyCandidate, fallback, before)
    requires Outcome(e, larger, m, w, LegacyCandidate, fallback, before)
    requires var keys := ContactKeys(packets, CaptureCandidates(m), w);
             Undecidable(keys, fallback) || Saturated(keys, CaptureCandidates(m), w, fallback, before)
    ensures d == e
  {
    hide FreshKeys, SortOrder, Attributable, Undecidable, BoundedCandidates;
    var c := CaptureCandidates(m);
    var keys, more := ContactKeys(packets, c, w), ContactKeys(larger, c, w);
    if Undecidable(keys, fallback) {
      UndecidableGrows(keys, more, c, fallback);
    } else if w.end < w.start || c == {} {
      assert keys == {} && more == {};
      OutcomeUnique(d, e, keys, more, FreshKeys(packets, c, w), FreshKeys(larger, c, w), m, LegacyCandidate, fallback, before);
    } else {
      var k :| k in keys && k.transport == Tcp
               && forall x: Key :: x.transport == Tcp && x.dst == k.dst && x != k ==> before(k, x);
      LeastStays(keys, more, c, before, k, d.observed, e.observed);
      OneFirst(k, d.observed.value, Attributable(keys, true), before);
      OneFirst(k, e.observed.value, Attributable(more, true), before);
    }
  }

  lemma OneFirst(j: Key, k: Key, keys: set<Key>, before: Order)
    requires SortOrder(before) && IsFirst(j, keys, before) && IsFirst(k, keys, before)
    ensures j == k
  {
  }

  // A background packet that makes the given contact without setting anything up.
  function Background(k: Key, w: Window): Packet {
    Packet(Some(w.start), k.transport, k.src, k.srcPort, k.dst, 443, false, true, 1, 9, false, 0)
  }

  /** One background packet adds any chosen contact and nothing else. */
  lemma BackgroundAdds(packets: seq<Packet>, m: Metadata, w: Window, k: Key)
    requires w.start <= w.end && k.dst in CaptureCandidates(m) && (k.transport == Tcp || k.transport == Udp)
    ensures OnlyNoiseInserted(packets, packets + [Background(k, w)], BoundedCandidates(m))
    ensures ContactKeys(packets + [Background(k, w)], CaptureCandidates(m), w)
         == ContactKeys(packets, CaptureCandidates(m), w) + {k}
  {
    var p, c := Background(k, w), CaptureCandidates(m);
    assert Contacts(p, c, w) && KeyOf(p) == k && p in packets + [p];
    forall x | x in ContactKeys(packets + [p], c, w) ensures x in ContactKeys(packets, c, w) + {k} {
      var q :| q in packets + [p] && Contacts(q, c, w) && KeyOf(q) == x;
    }
  }

  lemma DecisionExists(contacts: set<Key>, setups: set<Key>, m: Metadata, policy: Policy, fallback: bool, before: Order)
    returns (d: Decision)
    requires SortOrder(before)
    ensures Decides(d, contacts, setups, m, policy, fallback, before)
  {
    var chosen := Attributable(Attributed(contacts, setups, BoundedCandidates(m), policy), fallback);
    if chosen == {} {
      d := Decision(None, true);
    } else {
      var k := FirstExists(chosen, before);
      d := Decision(Some(k), m.intended.Some? && k.dst != m.intended.value);
    }
  }

  /** A contact whose addition changes what is observed refutes immunity. */
  lemma Disturbs(packets: seq<Packet>, m: Metadata, w: Window, fallback: bool, before: Order, k: Key)
    requires SortOrder(before) && LegacyImmune(packets, m, w, fallback, before)
    requires w.start <= w.end && k.dst in CaptureCandidates(m) && (k.transport == Tcp || k.transport == Udp)
    ensures var keys := ContactKeys(packets, CaptureCandidates(m), w);
            exists o: Option<Key> :: Observes(o, keys, fallback, before) && Observes(o, keys + {k}, fallback, before)
  {
    hide Attributable, SortOrder, BoundedCandidates;
    var c, larger := CaptureCandidates(m), packets + [Background(k, w)];
    BackgroundAdds(packets, m, w, k);
    var d := DecisionExists(ContactKeys(packets, c, w), FreshKeys(packets, c, w), m, LegacyCandidate, fallback, before);
    var e := DecisionExists(ContactKeys(larger, c, w), FreshKeys(larger, c, w), m, LegacyCandidate, fallback, before);
    assert Outcome(d, packets, m, w, LegacyCandidate, fallback, before);
    assert Outcome(e, larger, m, w, LegacyCandidate, fallback, before);
    assert d == e;
    assert Observes(d.observed, ContactKeys(packets, c, w), fallback, before);
  }

  /** What is observed from contacts attributed as they are. */
  ghost predicate Observes(o: Option<Key>, keys: set<Key>, fallback: bool, before: Order) {
    var chosen := Attributable(keys, fallback);
    if chosen == {} then o.None? else o.Some? && IsFirst(o.value, chosen, before)
  }

  /** Unless shielded, some contact changes what is observed. */
  lemma UnshieldedContact(keys: set<Key>, candidates: set<string>, w: Window, fallback: bool, before: Order) returns (k: Key)
    requires SortOrder(before) && KeysOf(keys, candidates)
    requires !Undecidable(keys, fallback) && !Saturated(keys, candidates, w, fallback, before)
    ensures w.start <= w.end && k.dst in candidates && (k.transport == Tcp || k.transport == Udp)
    ensures !exists o: Option<Key> :: Observes(o, keys, fallback, before) && Observes(o, keys + {k}, fallback, before)
  {
    AddressesSplit(keys);
    if keys == {} {
      k := Key(Tcp, "", 0, AnyOf(candidates));
      OneAddress(keys + {k}, k);
      assert Transports(keys + {k}) == {Tcp};
      assert k in Attributable(keys + {k}, fallback);
    } else {
      var j :| j in keys;
      OneAddress(keys, j);
      TransportsSplit(keys, candidates);
      if |candidates| > 1 && Attributable(keys, fallback) != {} {
        NotSingleton(candidates, j.dst);
        k := Key(Tcp, "", 0, AnyOf(candidates - {j.dst}));
        TwoAddresses(keys + {k}, j, k);
        assert Attributable(keys + {k}, fallback) == {};
      } else {
        k := SameAddressContact(keys, candidates, j, fallback, before);
      }
    }
  }

  lemma SameAddressContact(keys: set<Key>, candidates: set<string>, j: Key, fallback: bool, before: Order) returns (k: Key)
    requires SortOrder(before) && KeysOf(keys, candidates) && j in keys && forall i :: i in keys ==> i.dst == j.dst
    requires fallback || |Transports(keys)| == 1
    requires fallback && |candidates| == 1 ==>
               forall i :: i in keys && i.transport == Tcp ==>
                 exists x: Key :: x.transport == Tcp && x.dst == i.dst && x != i && !before(i, x)
    requires Attributable(keys, fallback) != {} ==> |candidates| == 1
    ensures k.dst in candidates && (k.transport == Tcp || k.transport == Udp)
    ensures !exists o: Option<Key> :: Observes(o, keys, fallback, before) && Observes(o, keys + {k}, fallback, before)
  {
    OneAddress(keys, j);
    if !fallback {
      k := Key(if j.transport == Tcp then Udp else Tcp, j.src, j.srcPort, j.dst);
      OneAddress(keys + {k}, k);
      TransportsSplit(keys, candidates);
      assert j.transport in Transports(keys);
      assert {j.transport, k.transport} <= Transports(keys + {k});
      SubsetSize({j.transport, k.transport}, Transports(keys + {k}));
      assert Attributable(keys + {k}, fallback) == {};
      assert j in Attributable(keys, fallback);
    } else if Attributable(keys, true) == {} {
      k := Key(Tcp, j.src, j.srcPort, j.dst);
      OneAddress(keys + {k}, k);
      assert k in Attributable(keys + {k}, true);
    } else {
      var first := FirstExists(Attributable(keys, true), before);
      k :| k.transport == Tcp && k.dst == first.dst && k != first && !before(first, k);
      OneAddress(keys + {k}, k);
      assert k in Attributable(keys + {k}, true) && first in Attributable(keys + {k}, true);
    }
  }

  /** The legacy policy is immune exactly in undecidable and saturated runs. */
  lemma LegacyImmuneIff(packets: seq<Packet>, m: Metadata, w: Window, fallback: bool, before: Order)
    requires SortOrder(before)
    ensures var keys, candidates := ContactKeys(packets, CaptureCandidates(m), w), CaptureCandidates(m);
            LegacyImmune(packets, m, w, fallback, before)
            <==> Undecidable(keys, fallback) || Saturated(keys, candidates, w, fallback, before)
  {
    hide Undecidable, Saturated, Outcome, SortOrder, OnlyNoiseInserted, Observes;
    var keys, candidates := ContactKeys(packets, CaptureCandidates(m), w), CaptureCandidates(m);
    if Undecidable(keys, fallback) || Saturated(keys, candidates, w, fallback, before) {
      forall larger, d, e |
        OnlyNoiseInserted(packets, larger, BoundedCandidates(m))
        && Outcome(d, packets, m, w, LegacyCandidate, fallback, before)
        && Outcome(e, larger, m, w, LegacyCandidate, fallback, before)
        ensures d == e
      {
        ShieldedIsImmune(packets, larger, m, w, fallback, before, d, e);
      }
    } else if LegacyImmune(packets, m, w, fallback, before) {
      var k := UnshieldedContact(keys, candidates, w, fallback, before);
      Disturbs(packets, m, w, fallback, before, k);
    }
  }

  /** With two or more candidates only undecidable runs are immune, so an ingress the legacy
      policy observes is never safe from background traffic. */
  lemma ObservedLegacyNeverImmune(packets: seq<Packet>, m: Metadata, w: Window, fallback: bool, before: Order, d: Decision)
    requires SortOrder(before) && w.start <= w.end && |CaptureCandidates(m)| >= 2
    requires Outcome(d, packets, m, w, LegacyCandidate, fallback, before)
    ensures LegacyImmune(packets, m, w, fallback, before)
            <==> Undecidable(ContactKeys(packets, CaptureCandidates(m), w), fallback)
    ensures d.observed.Some? ==> !LegacyImmune(packets, m, w, fallback, before)
  {
    LegacyImmuneIff(packets, m, w, fallback, before);
    AddressesSplit(ContactKeys(packets, CaptureCandidates(m), w));
  }

  // One fresh setup to an address the attempt resolved, then payload of an established
  // connection to another captured candidate.
  const SYN := Packet(Some(1), Tcp, "c", 50000, "a", 443, true, false, 0, 0, false, 1)
  const PAYLOAD := Packet(Some(2), Tcp, "c", 50001, "b", 443, false, true, 100, 0, false, 2)
  const RUN := Metadata(None, {"a", "b"}, {"a"}, {}, {})
  const WHILE := Window(0, 9)

  lemma ExampleContacts()
    ensures ContactKeys([SYN], CaptureCandidates(RUN), WHILE) == {KeyOf(SYN)}
    ensures ContactKeys([SYN, PAYLOAD], CaptureCandidates(RUN), WHILE) == {KeyOf(SYN), KeyOf(PAYLOAD)}
  {
    assert CaptureCandidates(RUN) == {"a", "b"};
    assert SYN in [SYN, PAYLOAD] && PAYLOAD in [SYN, PAYLOAD];
    assert Contacts(SYN, {"a", "b"}, WHILE) && Contacts(PAYLOAD, {"a", "b"}, WHILE);
  }

  /** The legacy policy is not immune: established payload to a second candidate turns an
      observed ingress into an unknown one. */
  lemma LegacyInterferes(before: Order, d: Decision, e: Decision)
    requires Outcome(d, [SYN], RUN, WHILE, LegacyCandidate, false, before)
    requires Outcome(e, [SYN, PAYLOAD], RUN, WHILE, LegacyCandidate, false, before)
    ensures d.observed == Some(KeyOf(SYN)) && e.observed == None && e.wrongOrUnknown
  {
    hide ContactKeys, FreshKeys;
    ExampleContacts();
    var one, two := {KeyOf(SYN)}, {KeyOf(SYN), KeyOf(PAYLOAD)};
    assert Addresses(one) == {"a"};
    assert Transports(one) == {Tcp};
    assert Attributable(one, false) == one;
    assert KeyOf(SYN).dst in Addresses(two) && KeyOf(PAYLOAD).dst in Addresses(two);
    assert Addresses(two) == {"a", "b"};
    assert |Addresses(two)| == 2;
    assert Attributable(two, false) == {};
  }
}
