/** The authoritative DNS stub: parsing a question, printing names, and answering
    (sections 4.1.1 to 4.1.4 of RFC 1035). */
module DnsStub {
  import opened Text
  import opened Wrappers

  type Byte = x: int | 0 <= x < 256

  type Bytes = seq<Byte>

  // ---------- Numbers ----------

  function Word(n: nat): (b: Bytes)
    requires n < 0x1_0000
    ensures |b| == 2
  {
    [n / 256, n % 256]
  }

  function Long(n: nat): (b: Bytes)
    requires n < 0x1_0000_0000
    ensures |b| == 4
  {
    Word(n / 0x1_0000) + Word(n % 0x1_0000)
  }

  function ReadWord(p: Bytes, o: nat): nat
    requires o + 2 <= |p|
  {
    p[o] as int * 256 + p[o + 1] as int
  }

  function ReadLong(p: Bytes, o: nat): nat
    requires o + 4 <= |p|
  {
    ReadWord(p, o) * 0x1_0000 + ReadWord(p, o + 2)
  }

  /** A part stands where it was written, with the rest behind it. */
  lemma Placed(p: Bytes, o: nat, part: Bytes, rest: Bytes)
    requires o <= |p| && p[o..] == part + rest
    ensures o + |part| <= |p| && p[o..o + |part|] == part && p[o + |part|..] == rest
  {
    assert p[o..][..|part|] == part && p[o..][|part|..] == rest;
  }

  lemma WordReads(p: Bytes, o: nat, n: nat)
    requires n < 0x1_0000 && o + 2 <= |p| && p[o..o + 2] == Word(n)
    ensures ReadWord(p, o) == n
  {
    assert p[o] == Word(n)[0] && p[o + 1] == Word(n)[1];
  }

  lemma LongReads(p: Bytes, o: nat, n: nat)
    requires n < 0x1_0000_0000 && o + 4 <= |p|
    requires forall i :: 0 <= i < 4 ==> p[o + i] == Long(n)[i]
    ensures ReadLong(p, o) == n
  {
    var high, low := n / 0x1_0000, n % 0x1_0000;
    assert p[o] == Long(n)[0] == high / 256 && p[o + 1] == Long(n)[1] == high % 256;
    assert p[o + 2] == Long(n)[2] == low / 256 && p[o + 3] == Long(n)[3] == low % 256;
  }

  // ---------- Names ----------

  predicate Ascii(s: string) {
    forall c :: c in s ==> c as int < 128
  }

  function CharByte(c: char): Byte {
    if c as int < 128 then c as int else 0
  }

  function Encoded(text: string): (b: Bytes)
    requires Ascii(text)
    ensures |b| == |text| && forall i :: 0 <= i < |text| ==> b[i] == CharByte(text[i])
  {
    seq(|text|, i requires 0 <= i < |text| => CharByte(text[i]))
  }

  function Decoded(b: Bytes): Option<string> {
    if exists i :: 0 <= i < |b| && b[i] >= 128 then None
    else Some(seq(|b|, i requires 0 <= i < |b| => b[i] as char))
  }

  lemma DecodeEncoded(s: string)
    requires Ascii(s)
    ensures Decoded(Encoded(s)) == Some(s)
  {
    forall i | 0 <= i < |s| ensures Encoded(s)[i] < 128 && Encoded(s)[i] as char == s[i] {
      assert s[i] in s;
    }
    assert Decoded(Encoded(s)).value == s;
  }

  /** The labels from `o` up to the zero byte, and the offset after it. */
  function ParseLabels(p: Bytes, o: nat): Option<(seq<string>, nat)>
    decreases |p| - o
  {
    if o >= |p| then None
    else if p[o] == 0 then Some(([], o + 1))
    else if p[o] >= 64 then None // one of the two high bits: a compressed or reserved name
    else if o + 1 + p[o] > |p| then None
    else
      var text := Decoded(p[o + 1..o + 1 + p[o]]);
      var rest := ParseLabels(p, o + 1 + p[o]);
      if text.None? || rest.None? then None else Some(([text.value] + rest.value.0, rest.value.1))
  }

  function Join(labels: seq<string>): string {
    if labels == [] then []
    else if |labels| == 1 then labels[0]
    else labels[0] + "." + Join(labels[1..])
  }

  datatype Question = Question(name: string, qtype: nat, qclass: nat, bytes: Bytes)

  /** What a packet asks; None for every packet the parser refuses. */
  function ParsedQuestion(p: Bytes): Option<Question> {
    if |p| < 12 then None
    else
      var labels := ParseLabels(p, 12);
      if labels.None? || labels.value.1 + 4 > |p| then None
      else
        var end := labels.value.1;
        Some(Question(Lower(Join(labels.value.0)), ReadWord(p, end), ReadWord(p, end + 2), LabelsEnd(p, 12); p[12..end + 4]))
  }

  lemma {:induction false} LabelsEnd(p: Bytes, o: nat)
    ensures ParseLabels(p, o).Some? ==> o < ParseLabels(p, o).value.1 <= |p|
    decreases |p| - o
  {
    if o < |p| && 0 < p[o] < 64 {
      LabelsEnd(p, o + 1 + p[o]);
    }
  }

  method ParseQuestion(p: Bytes) returns (q: Option<Question>)
    ensures q == ParsedQuestion(p)
  {
    hide Decoded, Join, Lower, ReadWord;
    if |p| < 12 {
      return None;
    }
    var labels: seq<string>, offset: nat := [], 12;
    assert ParseLabels(p, 12).Some? ==> [] + ParseLabels(p, 12).value.0 == ParseLabels(p, 12).value.0;
    while true
      invariant offset >= 12
      invariant ParseLabels(p, 12) == Prepended(labels, ParseLabels(p, offset))
      decreases |p| - offset
    {
      if offset >= |p| {
        return None;
      }
      var length := p[offset];
      if length == 0 {
        break;
      }
      if length >= 64 || offset + 1 + length > |p| {
        return None;
      }
      var text := Decoded(p[offset + 1..offset + 1 + length]);
      if text.None? {
        return None;
      }
      PrependOne(labels, text.value, ParseLabels(p, offset + 1 + length));
      labels := labels + [text.value];
      offset := offset + 1 + length;
    }
    assert labels + [] == labels;
    offset := offset + 1;
    if offset + 4 > |p| {
      return None;
    }
    q := Some(Question(Lower(Join(labels)), ReadWord(p, offset), ReadWord(p, offset + 2), p[12..offset + 4]));
  }

  ghost function Prepended(labels: seq<string>, rest: Option<(seq<string>, nat)>): Option<(seq<string>, nat)> {
    if rest.None? then None else Some((labels + rest.value.0, rest.value.1))
  }

  lemma PrependOne(labels: seq<string>, text: string, rest: Option<(seq<string>, nat)>)
    ensures Prepended(labels, Prepended([text], rest)) == Prepended(labels + [text], rest)
  {
    if rest.Some? {
      assert labels + ([text] + rest.value.0) == (labels + [text]) + rest.value.0;
    }
  }

  // ---------- Printing names ----------

  function StripDots(name: string): string {
    if name != [] && name[|name| - 1] == '.' then StripDots(name[..|name| - 1]) else name
  }

  function SplitDots(s: string): (labels: seq<string>)
    ensures labels != []
  {
    if s == [] then [[]]
    else
      var rest := SplitDots(s[1..]);
      if s[0] == '.' then [[]] + rest else [[s[0]] + rest[0]] + rest[1..]
  }

  lemma {:induction false} JoinSplit(s: string)
    ensures Join(SplitDots(s)) == s
  {
    if s != [] {
      var rest := SplitDots(s[1..]);
      JoinSplit(s[1..]);
      assert s == [s[0]] + s[1..];
      if s[0] == '.' {
        assert ([[]] + rest)[1..] == rest;
      } else {
        assert ([[s[0]] + rest[0]] + rest[1..])[1..] == rest[1..];
      }
    }
  }

  predicate NoDots(labels: seq<string>) {
    forall l :: l in labels ==> '.' !in l
  }

  lemma {:induction false} SplitHasNoDots(s: string)
    ensures NoDots(SplitDots(s))
  {
    if s != [] {
      SplitHasNoDots(s[1..]);
    }
  }

  /** A name has one list of labels without dots. */
  lemma {:induction false} SplitJoin(labels: seq<string>)
    requires labels != [] && NoDots(labels)
    ensures SplitDots(Join(labels)) == labels
    decreases |labels|, |labels[0]|
  {
    var name, first := Join(labels), labels[0];
    assert first in labels;
    if first == [] {
      if |labels| > 1 {
        SplitJoin(labels[1..]);
        assert name[1..] == Join(labels[1..]);
        assert labels == [[]] + labels[1..];
      }
    } else {
      var shorter := [first[1..]] + labels[1..];
      SplitJoin(shorter);
      assert shorter[1..] == labels[1..];
      assert name == [first[0]] + Join(shorter);
      assert first == [first[0]] + first[1..] && labels == [first] + labels[1..];
    }
  }

  /** Only dots are stripped, and all of them. */
  lemma {:induction false} DotsStripped(name: string)
    ensures StripDots(name) <= name && forall i :: |StripDots(name)| <= i < |name| ==> name[i] == '.'
    ensures StripDots(name) != [] ==> StripDots(name)[|StripDots(name)| - 1] != '.'
  {
    if name != [] && name[|name| - 1] == '.' {
      DotsStripped(name[..|name| - 1]);
    }
  }

  predicate Printable(labels: seq<string>) {
    forall l :: l in labels ==> Ascii(l) && |l| < 256
  }

  function EncodedLabels(labels: seq<string>): Bytes
    requires Printable(labels)
  {
    if labels == [] then []
    else
      assert labels[0] in labels;
      [|labels[0]|] + Encoded(labels[0]) + EncodedLabels(labels[1..])
  }

  /** The wire form of a name; None when a label has a non-ASCII character or 256 characters or more. */
  function EncodedName(name: string): Option<Bytes> {
    var labels := SplitDots(StripDots(name));
    if !Printable(labels) then None else Some(EncodedLabels(labels) + [0])
  }

  predicate WellSized(labels: seq<string>) {
    forall l :: l in labels ==> 1 <= |l| <= 63
  }

  function LabelBytes(text: string): Bytes
    requires Ascii(text) && |text| < 256
  {
    [|text|] + Encoded(text)
  }

  /** The packet holds these bytes at this offset. */
  predicate Holds(p: Bytes, o: nat, b: Bytes) {
    o + |b| <= |p| && p[o..o + |b|] == b
  }

  lemma HoldsParts(p: Bytes, o: nat, first: Bytes, second: Bytes)
    ensures Holds(p, o, first + second) <==> Holds(p, o, first) && Holds(p, o + |first|, second)
  {
    if Holds(p, o, first + second) {
      var whole := p[o..o + |first + second|];
      assert whole[..|first|] == first && whole[|first|..] == second;
    }
  }

  lemma UnfoldLabel(p: Bytes, o: nat, text: string)
    requires Ascii(text) && 1 <= |text| <= 63 && Holds(p, o, LabelBytes(text))
    ensures ParseLabels(p, o) == Prepended([text], ParseLabels(p, o + 1 + |text|))
  {
    HoldsParts(p, o, [|text|], Encoded(text));
    assert p[o] == p[o..o + 1][0];
    DecodeEncoded(text);
  }

  lemma EncodedHead(labels: seq<string>)
    requires Printable(labels) && labels != []
    ensures Ascii(labels[0]) && |labels[0]| < 256 && Printable(labels[1..])
    ensures EncodedLabels(labels) == LabelBytes(labels[0]) + EncodedLabels(labels[1..])
    ensures |LabelBytes(labels[0])| == 1 + |labels[0]| && LabelBytes(labels[0])[0] == |labels[0]|
    ensures WellSized(labels) <==> 1 <= |labels[0]| <= 63 && WellSized(labels[1..])
  {
    assert labels[0] in labels;
    assert labels == [labels[0]] + labels[1..];
  }

  lemma EndOfName(p: Bytes, o: nat)
    requires Holds(p, o, EncodedLabels([]) + [0])
    ensures ParseLabels(p, o) == Some(([], o + 1)) && EncodedLabels([]) == []
  {
    var b := EncodedLabels([]) + [0];
    assert |b| == 1 && b[0] == 0;
    assert p[o] == p[o..o + 1][0];
  }

  lemma {:induction false} ParseEncoded(p: Bytes, o: nat, labels: seq<string>)
    requires Printable(labels) && WellSized(labels) && Holds(p, o, EncodedLabels(labels) + [0])
    ensures ParseLabels(p, o) == Some((labels, o + |EncodedLabels(labels)| + 1))
    decreases |labels|
  {
    hide ParseLabels, EncodedLabels, LabelBytes, Holds, Printable, WellSized, Ascii;
    if labels == [] {
      EndOfName(p, o);
    } else {
      EncodedHead(labels);
      SplitOff(p, o, labels);
      UnfoldLabel(p, o, labels[0]);
      ParseEncoded(p, o + 1 + |labels[0]|, labels[1..]);
      assert labels == [labels[0]] + labels[1..];
    }
  }

  lemma SplitOff(p: Bytes, o: nat, labels: seq<string>)
    requires Printable(labels) && labels != [] && Holds(p, o, EncodedLabels(labels) + [0])
    ensures Printable(labels[1..]) && Ascii(labels[0]) && |labels[0]| < 256
    ensures Holds(p, o, LabelBytes(labels[0])) && Holds(p, o + 1 + |labels[0]|, EncodedLabels(labels[1..]) + [0])
  {
    hide EncodedLabels, LabelBytes, Holds, Printable, WellSized, Ascii;
    EncodedHead(labels);
    var first, rest := LabelBytes(labels[0]), EncodedLabels(labels[1..]);
    assert first + rest + [0] == first + (rest + [0]);
    HoldsParts(p, o, first, rest + [0]);
  }

  /** Whatever parses is a printed name of labels of 1 to 63 characters. */
  lemma {:induction false} ParsedIsEncoded(p: Bytes, o: nat)
    requires ParseLabels(p, o).Some?
    ensures var labels := ParseLabels(p, o).value.0;
            && Printable(labels) && WellSized(labels) && Holds(p, o, EncodedLabels(labels) + [0])
            && ParseLabels(p, o).value.1 == o + |EncodedLabels(labels)| + 1
    decreases |p| - o
  {
    hide EncodedLabels, LabelBytes, Holds, Printable, WellSized, Ascii, Decoded, Encoded;
    if p[o] == 0 {
      NoLabels(p, o);
    } else {
      var text := Decoded(p[o + 1..o + 1 + p[o]]).value;
      var rest := ParseLabels(p, o + 1 + p[o]).value.0;
      ParsedIsEncoded(p, o + 1 + p[o]);
      DecodedIsEncoded(p, o, text);
      OneMoreLabel(text, rest);
      assert LabelBytes(text) + EncodedLabels(rest) + [0] == LabelBytes(text) + (EncodedLabels(rest) + [0]);
      HoldsParts(p, o, LabelBytes(text), EncodedLabels(rest) + [0]);
    }
  }

  lemma NoLabels(p: Bytes, o: nat)
    requires o < |p| && p[o] == 0
    ensures Printable([]) && WellSized([]) && EncodedLabels([]) == [] && Holds(p, o, EncodedLabels([]) + [0])
  {
    assert p[o..o + 1] == [0];
  }

  lemma DecodedIsEncoded(p: Bytes, o: nat, text: string)
    requires o < |p| && 0 < p[o] < 64 && o + 1 + p[o] <= |p| && Decoded(p[o + 1..o + 1 + p[o]]) == Some(text)
    ensures Ascii(text) && |text| == p[o] && Holds(p, o, LabelBytes(text)) && |LabelBytes(text)| == 1 + |text|
  {
    var b := p[o + 1..o + 1 + p[o]];
    forall i | 0 <= i < |b| ensures text[i] as int == b[i] < 128 {
    }
    assert Encoded(text) == b;
    assert p[o..o + 1 + |text|] == [p[o]] + b;
  }

  lemma OneMoreLabel(text: string, rest: seq<string>)
    requires Ascii(text) && 1 <= |text| <= 63 && Printable(rest) && WellSized(rest)
    ensures Printable([text] + rest) && WellSized([text] + rest)
    ensures EncodedLabels([text] + rest) == LabelBytes(text) + EncodedLabels(rest)
  {
    assert ([text] + rest)[1..] == rest;
  }

  /** A label of no or of too many characters makes the parser refuse or stop early. */
  lemma {:induction false} BadLabelsDiffer(p: Bytes, o: nat, labels: seq<string>)
    requires Printable(labels) && !WellSized(labels) && Holds(p, o, EncodedLabels(labels) + [0])
    ensures ParseLabels(p, o).Some? ==> ParseLabels(p, o).value.1 < o + |EncodedLabels(labels)| + 1
    decreases |labels|
  {
    hide ParseLabels, EncodedLabels, LabelBytes, Holds, Printable, WellSized, Ascii;
    NotEmpty(labels);
    EncodedHead(labels);
    SplitOff(p, o, labels);
    if 1 <= |labels[0]| <= 63 {
      UnfoldLabel(p, o, labels[0]);
      BadLabelsDiffer(p, o + 1 + |labels[0]|, labels[1..]);
    } else {
      BadLabelStops(p, o, labels[0]);
    }
  }

  lemma NotEmpty(labels: seq<string>)
    requires !WellSized(labels)
    ensures labels != []
  {
  }

  lemma BadLabelStops(p: Bytes, o: nat, text: string)
    requires Ascii(text) && |text| < 256 && !(1 <= |text| <= 63) && Holds(p, o, LabelBytes(text))
    ensures ParseLabels(p, o).Some? ==> ParseLabels(p, o).value.1 == o + 1 && text == ""
  {
    assert p[o] == p[o..o + |LabelBytes(text)|][0] == |text|;
  }

  /** Asking for a printed name parses back to that name in lower case, with the type, class
      and question bytes sent, exactly when every label has 1 to 63 characters. */
  lemma EncodeThenParse(header: Bytes, name: string, qtype: nat, qclass: nat, extra: Bytes)
    requires |header| == 12 && EncodedName(name).Some? && qtype < 0x1_0000 && qclass < 0x1_0000
    ensures var bytes := EncodedName(name).value + Word(qtype) + Word(qclass);
            ParsedQuestion(header + bytes + extra) == Some(Question(Lower(StripDots(name)), qtype, qclass, bytes))
            <==> WellSized(SplitDots(StripDots(name)))
  {
    hide ParseLabels, EncodedLabels, SplitDots, StripDots, Join, Lower, Printable, WellSized, ReadWord, Word, Holds;
    var labels := SplitDots(StripDots(name));
    var encoded := EncodedLabels(labels) + [0];
    var bytes := encoded + Word(qtype) + Word(qclass);
    var p := header + bytes + extra;
    NameFits(header, encoded, qtype, qclass, extra);
    LabelsEnd(p, 12);
    if WellSized(labels) {
      ParseEncoded(p, 12, labels);
      JoinSplit(StripDots(name));
    } else {
      BadLabelsDiffer(p, 12, labels);
      assert ParsedQuestion(p).Some? ==> |ParsedQuestion(p).value.bytes| < |bytes|;
    }
  }

  /** Behind the header stand the name, the type and the class. */
  lemma NameFits(header: Bytes, encoded: Bytes, qtype: nat, qclass: nat, extra: Bytes)
    requires |header| == 12 && qtype < 0x1_0000 && qclass < 0x1_0000
    ensures var bytes := encoded + Word(qtype) + Word(qclass);
            var p, end := header + bytes + extra, 12 + |encoded|;
            && |bytes| == |encoded| + 4 && |p| >= end + 4 && p[12..end + 4] == bytes && Holds(p, 12, encoded)
            && ReadWord(p, end) == qtype && ReadWord(p, end + 2) == qclass
  {
    hide ReadWord, Word;
    var bytes := encoded + Word(qtype) + Word(qclass);
    var p, end := header + bytes + extra, 12 + |encoded|;
    assert p == header + (bytes + extra);
    Placed(p, 12, bytes, extra);
    Placed(p, 12, encoded, Word(qtype) + Word(qclass) + extra);
    Placed(p, end, Word(qtype), Word(qclass) + extra);
    Placed(p, end + 2, Word(qclass), extra);
    WordReads(p, end, qtype);
    WordReads(p, end + 2, qclass);
  }

  /** A packet parses exactly when behind the header it holds a printed name of labels of 1 to
      63 characters and four bytes more. */
  lemma ParsesIff(p: Bytes)
    ensures ParsedQuestion(p).Some? <==>
            exists labels :: Printable(labels) && WellSized(labels) && Holds(p, 12, EncodedLabels(labels) + [0])
                             && 12 + |EncodedLabels(labels)| + 5 <= |p|
  {
    hide ParseLabels, EncodedLabels, Printable, WellSized, Join, Lower;
    LabelsEnd(p, 12);
    if ParsedQuestion(p).Some? {
      ParsedIsEncoded(p, 12);
    }
    if labels :| Printable(labels) && WellSized(labels) && Holds(p, 12, EncodedLabels(labels) + [0])
                 && 12 + |EncodedLabels(labels)| + 5 <= |p| {
      ParseEncoded(p, 12, labels);
    }
  }

  // ---------- Answering ----------

  const ALLOWED_NAMES := {"mask.icloud.com", "mask-h2.icloud.com"}

  // A pointer to the question's name at offset 12.
  const QUESTION_NAME: Bytes := [0xC0, 0x0C]

  const LOCALHOST := ["localhost"]
  const HOSTMASTER := ["hostmaster", "localhost"]

  function NameBytes(labels: seq<string>): Bytes
    requires Printable(labels)
  {
    EncodedLabels(labels) + [0]
  }

  /** Serial, refresh, retry, expire and minimum. */
  function SoaNumbers(ttl: nat): (b: Bytes)
    requires ttl < 0x1_0000_0000
    ensures |b| == 20
  {
    Long(1) + Long(60) + Long(60) + Long(300) + Long(ttl)
  }

  function SoaData(ttl: nat): Bytes
    requires ttl < 0x1_0000_0000
  {
    NameBytes(LOCALHOST) + NameBytes(HOSTMASTER) + SoaNumbers(ttl)
  }

  function Record(rtype: nat, ttl: nat, data: Bytes): Bytes
    requires rtype < 0x1_0000 && ttl < 0x1_0000_0000 && |data| < 0x1_0000
  {
    QUESTION_NAME + Word(rtype) + Word(1) + Long(ttl) + Word(|data|) + data
  }

  lemma SoaSize(ttl: nat)
    requires ttl < 0x1_0000_0000
    ensures |SoaData(ttl)| == 53
  {
    hide EncodedLabels, SoaNumbers, Printable;
    AuthoritySizes();
  }

  lemma AuthoritySizes()
    ensures |EncodedLabels(LOCALHOST)| == 10 && |EncodedLabels(HOSTMASTER)| == 21
  {
    assert EncodedLabels(LOCALHOST[1..]) == [];
    assert HOSTMASTER[1..] == LOCALHOST;
  }

  predicate Allowed(q: Question) {
    q.name in ALLOWED_NAMES && q.qclass == 1
  }

  /** The one record of an answer: the pinned address, or the zone's authority. */
  function AnswerRecord(q: Question, ipv4: Bytes, ttl: nat): Bytes
    requires |ipv4| == 4 && ttl < 0x1_0000_0000
  {
    SoaSize(ttl);
    if Allowed(q) && q.qtype == 1 then Record(1, ttl, ipv4) else Record(6, ttl, SoaData(ttl))
  }

  function RecursionBit(p: Bytes): nat
    requires |p| >= 12
  {
    p[2] % 2
  }

  /** The response header: the query's identifier, an authoritative answer with the query's
      recursion bit, and the counts of the sections that follow. */
  function Header(p: Bytes, allowed: bool, answered: bool): (h: Bytes)
    requires |p| >= 12
    ensures |h| == 12
  {
    p[..2] + [0x84 + RecursionBit(p), if allowed then 0 else 3] + Word(1)
    + Word(if answered then 1 else 0) + Word(if answered then 0 else 1) + Word(0)
  }

  /** Refused unless the packet holds a header announcing exactly one parsable question. */
  function ResponseFor(p: Bytes, ipv4: Bytes, ttl: nat): Option<Bytes>
    requires |ipv4| == 4 && ttl < 0x1_0000_0000
  {
    var q := ParsedQuestion(p);
    if |p| < 12 || ReadWord(p, 4) != 1 || q.None? then None
    else
      var answered := Allowed(q.value) && q.value.qtype == 1;
      Some(Header(p, Allowed(q.value), answered) + q.value.bytes + AnswerRecord(q.value, ipv4, ttl))
  }

  // ---------- A reader for one resource record ----------

  datatype ResourceRecord = ResourceRecord(owner: Bytes, rtype: nat, rclass: nat, ttl: nat, data: Bytes, end: nat)

  function ReadRecord(p: Bytes, o: nat): Option<ResourceRecord> {
    if o + 12 > |p| then None
    else
      var length := ReadWord(p, o + 10);
      if o + 12 + length > |p| then None
      else Some(ResourceRecord(p[o..o + 2], ReadWord(p, o + 2), ReadWord(p, o + 4), ReadLong(p, o + 6),
                               p[o + 12..o + 12 + length], o + 12 + length))
  }

  lemma ReadWritten(before: Bytes, rtype: nat, ttl: nat, data: Bytes)
    requires rtype < 0x1_0000 && ttl < 0x1_0000_0000 && |data| < 0x1_0000
    ensures ReadRecord(before + Record(rtype, ttl, data), |before|)
         == Some(ResourceRecord(QUESTION_NAME, rtype, 1, ttl, data, |before| + 12 + |data|))
    ensures |Record(rtype, ttl, data)| == 12 + |data|
  {
    hide ReadLong, Long, ReadWord, Word;
    var r, o := Record(rtype, ttl, data), |before|;
    var p := before + r;
    Placed(p, o, QUESTION_NAME, Word(rtype) + Word(1) + Long(ttl) + Word(|data|) + data);
    Placed(p, o + 2, Word(rtype), Word(1) + Long(ttl) + Word(|data|) + data);
    Placed(p, o + 4, Word(1), Long(ttl) + Word(|data|) + data);
    Placed(p, o + 6, Long(ttl), Word(|data|) + data);
    Placed(p, o + 10, Word(|data|), data);
    WordReads(p, o + 2, rtype);
    WordReads(p, o + 4, 1);
    LongReads(p, o + 6, ttl);
    WordReads(p, o + 10, |data|);
    assert |p[o + 12..]| == |data| && p[o + 12..o + 12 + |data|] == p[o + 12..];
  }

  /** Parsing labels looks at no byte outside them. */
  lemma {:induction false} LabelsLocal(p: Bytes, r: Bytes, o: nat)
    requires ParseLabels(p, o).Some?
    requires var end := ParseLabels(p, o).value.1; end <= |p| && end <= |r| && forall i :: o <= i < end ==> r[i] == p[i]
    ensures ParseLabels(r, o) == ParseLabels(p, o)
    decreases |p| - o
  {
    LabelsEnd(p, o);
    if p[o] != 0 {
      LabelsEnd(p, o + 1 + p[o]);
      assert r[o + 1..o + 1 + p[o]] == p[o + 1..o + 1 + p[o]];
      LabelsLocal(p, r, o + 1 + p[o]);
    }
  }

  lemma QuestionLocal(p: Bytes, r: Bytes)
    requires ParsedQuestion(p).Some?
    requires var n := 12 + |ParsedQuestion(p).value.bytes|; n <= |r| && r[12..n] == ParsedQuestion(p).value.bytes
    ensures ParsedQuestion(r) == ParsedQuestion(p)
  {
    LabelsEnd(p, 12);
    var end := ParseLabels(p, 12).value.1;
    var n := end + 4;
    assert ParsedQuestion(p).value.bytes == p[12..n];
    forall i | 12 <= i < n ensures r[i] == p[i] {
      assert r[12..n][i - 12] == p[12..n][i - 12];
    }
    LabelsLocal(p, r, 12);
    assert r[12..n] == p[12..n];
  }

  /** The header of a response: the query's identifier, one question, one record in all, the
      recursion bit copied, and a name error exactly for a name that is not allowed. */
  predicate RightHeader(r: Bytes, p: Bytes, allowed: bool, answered: bool) {
    && |p| >= 12 && |r| >= 12 && r[..2] == p[..2]
    && ReadWord(r, 4) == 1 && ReadWord(r, 6) == (if answered then 1 else 0)
    && ReadWord(r, 8) == 1 - ReadWord(r, 6) && ReadWord(r, 10) == 0
    && r[2] == 0x84 + p[2] % 2 && r[3] == (if allowed then 0 else 3)
  }

  /** The response parses to the query's question, and carries exactly one record, in the
      section its counts announce and of the length it declares, with nothing after it: the
      pinned address for an allowed A query, otherwise the zone's authority. */
  predicate Answers(r: Bytes, p: Bytes, ipv4: Bytes, ttl: nat)
    requires ttl < 0x1_0000_0000
  {
    && ParsedQuestion(p).Some?
    && var q := ParsedQuestion(p).value;
       var answered := Allowed(q) && q.qtype == 1;
    && RightHeader(r, p, Allowed(q), answered)
    && ParsedQuestion(r) == Some(q)
    && ReadRecord(r, 12 + |q.bytes|) == Some(ResourceRecord(QUESTION_NAME, if answered then 1 else 6, 1, ttl,
         if answered then ipv4 else SoaData(ttl), |r|))
  }

  /** A packet is answered exactly when it announces one question and that question parses,
      and every answer is well formed. */
  lemma ResponseWellFormed(p: Bytes, ipv4: Bytes, ttl: nat)
    requires |ipv4| == 4 && ttl < 0x1_0000_0000
    ensures ResponseFor(p, ipv4, ttl).Some? <==> ParsedQuestion(p).Some? && ReadWord(p, 4) == 1
    ensures ResponseFor(p, ipv4, ttl).Some? ==> Answers(ResponseFor(p, ipv4, ttl).value, p, ipv4, ttl)
  {
    hide ParseLabels, EncodedLabels, AnswerRecord, Header, Answers, Lower, Join;
    if ResponseFor(p, ipv4, ttl).Some? {
      AnswerAssembled(p, ipv4, ttl);
    }
  }

  lemma AnswerAssembled(p: Bytes, ipv4: Bytes, ttl: nat)
    requires |ipv4| == 4 && ttl < 0x1_0000_0000 && ResponseFor(p, ipv4, ttl).Some?
    ensures Answers(ResponseFor(p, ipv4, ttl).value, p, ipv4, ttl)
  {
    hide ResponseFor, ParsedQuestion, ParseLabels, EncodedLabels, NameBytes, SoaNumbers, Allowed, Record, SoaData, Header,
         RightHeader, ReadRecord, AnswerRecord, ReadWord, Printable, Word, Long, Lower, Join;
    UnfoldResponse(p, ipv4, ttl);
    var q := ParsedQuestion(p).value;
    var answered := Allowed(q) && q.qtype == 1;
    UnfoldRecord(q, ipv4, ttl);
    var header, record := Header(p, Allowed(q), answered), AnswerRecord(q, ipv4, ttl);
    Regroup(header, q.bytes, record);
    HeaderReads(p, Allowed(q), answered, q.bytes + record);
    RecordFollows(header, q.bytes, if answered then 1 else 6, ttl, if answered then ipv4 else SoaData(ttl));
    QuestionLocal(p, header + q.bytes + record);
  }

  lemma RecordFollows(header: Bytes, bytes: Bytes, rtype: nat, ttl: nat, data: Bytes)
    requires |header| == 12 && rtype < 0x1_0000 && ttl < 0x1_0000_0000 && |data| < 0x1_0000
    ensures var r := header + bytes + Record(rtype, ttl, data);
            ReadRecord(r, 12 + |bytes|) == Some(ResourceRecord(QUESTION_NAME, rtype, 1, ttl, data, |r|))
  {
    hide Record, ReadRecord;
    ReadWritten(header + bytes, rtype, ttl, data);
  }

  lemma Regroup(header: Bytes, bytes: Bytes, record: Bytes)
    ensures header + bytes + record == header + (bytes + record)
    ensures (header + bytes + record)[|header|..|header| + |bytes|] == bytes
  {
  }

  lemma UnfoldResponse(p: Bytes, ipv4: Bytes, ttl: nat)
    requires |ipv4| == 4 && ttl < 0x1_0000_0000 && ResponseFor(p, ipv4, ttl).Some?
    ensures |p| >= 12 && ParsedQuestion(p).Some?
    ensures var q := ParsedQuestion(p).value;
            ResponseFor(p, ipv4, ttl).value
            == Header(p, Allowed(q), Allowed(q) && q.qtype == 1) + q.bytes + AnswerRecord(q, ipv4, ttl)
  {
    hide ParsedQuestion, Header, AnswerRecord, Allowed;
  }

  lemma UnfoldRecord(q: Question, ipv4: Bytes, ttl: nat)
    requires |ipv4| == 4 && ttl < 0x1_0000_0000
    ensures |SoaData(ttl)| == 53
    ensures var answered := Allowed(q) && q.qtype == 1;
            AnswerRecord(q, ipv4, ttl)
            == Record(if answered then 1 else 6, ttl, if answered then ipv4 else SoaData(ttl))
  {
    SoaSize(ttl);
    hide SoaData, Allowed, Record;
  }

  lemma HeaderReads(p: Bytes, allowed: bool, answered: bool, rest: Bytes)
    requires |p| >= 12
    ensures RightHeader(Header(p, allowed, answered) + rest, p, allowed, answered)
  {
  }

  // ---------- Printed queries and their answers ----------

  function Query(header: Bytes, name: string, qtype: nat, qclass: nat): Bytes
    requires EncodedName(name).Some? && qtype < 0x1_0000 && qclass < 0x1_0000
  {
    header + (EncodedName(name).value + Word(qtype) + Word(qclass))
  }

  /** A header announcing one question, and a name the parser can read. */
  predicate Askable(header: Bytes, name: string, qtype: nat, qclass: nat) {
    && |header| == 12 && ReadWord(header, 4) == 1 && qtype < 0x1_0000 && qclass < 0x1_0000
    && EncodedName(name).Some? && WellSized(SplitDots(StripDots(name)))
  }

  lemma QueryParses(header: Bytes, name: string, qtype: nat, qclass: nat)
    requires Askable(header, name, qtype, qclass)
    ensures var p := Query(header, name, qtype, qclass);
            && |p| >= 12 && ReadWord(p, 4) == 1 && p[..12] == header
            && ParsedQuestion(p) == Some(Question(Lower(StripDots(name)), qtype, qclass, p[12..]))
  {
    hide ParsedQuestion, SplitDots, StripDots, EncodedLabels, WellSized, Printable, Lower;
    EncodeThenParse(header, name, qtype, qclass, []);
    var p := Query(header, name, qtype, qclass);
    assert p + [] == p;
    assert p[12..] == EncodedName(name).value + Word(qtype) + Word(qclass);
  }

  /** The address is given exactly for an Internet address query of one of the two relay
      names in any letter case; any other name or class is told not to exist. */
  lemma AddressIff(header: Bytes, name: string, qtype: nat, qclass: nat, ipv4: Bytes, ttl: nat)
    requires Askable(header, name, qtype, qclass) && |ipv4| == 4 && ttl < 0x1_0000_0000
    ensures var p := Query(header, name, qtype, qclass);
            var ours := qclass == 1 && (SameButCase(StripDots(name), "mask.icloud.com")
                                        || SameButCase(StripDots(name), "mask-h2.icloud.com"));
            && ResponseFor(p, ipv4, ttl).Some?
            && var r := ResponseFor(p, ipv4, ttl).value;
            && |r| >= 12 && r[3] == (if ours then 0 else 3)
            && ReadWord(r, 6) == (if ours && qtype == 1 then 1 else 0)
            && ReadRecord(r, |p|).Some?
            && var record := ReadRecord(r, |p|).value;
               if ours && qtype == 1 then record.rtype == 1 && record.data == ipv4 else record.rtype == 6
  {
    hide ParsedQuestion, ReadRecord, EncodedName, WellSized, SplitDots, StripDots, Lower, SameButCase, SoaData;
    var p := Query(header, name, qtype, qclass);
    QueryParses(header, name, qtype, qclass);
    ResponseWellFormed(p, ipv4, ttl);
    RelayNames(StripDots(name));
  }

  lemma RelayNames(name: string)
    ensures Lower(name) in ALLOWED_NAMES <==> SameButCase(name, "mask.icloud.com") || SameButCase(name, "mask-h2.icloud.com")
  {
    hide Lower, SameButCase;
    LowerDecides(name, "mask.icloud.com");
    LowerDecides(name, "mask-h2.icloud.com");
  }

  /** Queries whose names differ only in letter case get the same flags, counts and record. */
  lemma CaseIrrelevant(header: Bytes, name: string, name': string, qtype: nat, qclass: nat, ipv4: Bytes, ttl: nat)
    requires Askable(header, name, qtype, qclass) && Askable(header, name', qtype, qclass)
    requires |ipv4| == 4 && ttl < 0x1_0000_0000 && SameButCase(StripDots(name), StripDots(name'))
    ensures var p, p' := Query(header, name, qtype, qclass), Query(header, name', qtype, qclass);
            && ResponseFor(p, ipv4, ttl).Some? && ResponseFor(p', ipv4, ttl).Some?
            && var r, r' := ResponseFor(p, ipv4, ttl).value, ResponseFor(p', ipv4, ttl).value;
            && |r| >= |p| >= 12 && |r'| >= |p'| >= 12 && r[..12] == r'[..12] && r[|p|..] == r'[|p'|..]
  {
    hide ParsedQuestion, EncodedName, WellSized, SplitDots, StripDots, Lower, SameButCase, AnswerRecord, Header;
    LowerDecides(StripDots(name), StripDots(name'));
    QueryParses(header, name, qtype, qclass);
    QueryParses(header, name', qtype, qclass);
    var p, p' := Query(header, name, qtype, qclass), Query(header, name', qtype, qclass);
    var q, q' := ParsedQuestion(p).value, ParsedQuestion(p').value;
    SameHeader(p, p', Allowed(q), Allowed(q) && q.qtype == 1);
    SameRecord(q, q', ipv4, ttl);
  }

  lemma SameHeader(p: Bytes, p': Bytes, allowed: bool, answered: bool)
    requires |p| >= 12 && |p'| >= 12 && p[..12] == p'[..12]
    ensures Header(p, allowed, answered) == Header(p', allowed, answered)
  {
    assert p[..2] == p[..12][..2] && p'[..2] == p'[..12][..2];
    assert p[2] == p[..12][2] && p'[2] == p'[..12][2];
  }

  lemma SameRecord(q: Question, q': Question, ipv4: Bytes, ttl: nat)
    requires q.(bytes := []) == q'.(bytes := []) && |ipv4| == 4 && ttl < 0x1_0000_0000
    ensures AnswerRecord(q, ipv4, ttl) == AnswerRecord(q', ipv4, ttl) && Allowed(q) == Allowed(q')
  {
    hide Record, SoaData;
    SoaSize(ttl);
  }

  /** The authority's two names parse back, and its serial, refresh, retry, expire and minimum
      follow them up to the end. */
  lemma AuthorityParses(ttl: nat)
    requires ttl < 0x1_0000_0000
    ensures var data, first := SoaData(ttl), ParseLabels(SoaData(ttl), 0);
            && first.Some? && first.value.0 == LOCALHOST
            && var second := ParseLabels(data, first.value.1);
            && second.Some? && second.value.0 == HOSTMASTER && |data| == second.value.1 + 20
            && var n := second.value.1;
            && ReadLong(data, n) == 1 && ReadLong(data, n + 4) == 60 && ReadLong(data, n + 8) == 60
            && ReadLong(data, n + 12) == 300 && ReadLong(data, n + 16) == ttl
  {
    hide ParseLabels, EncodedLabels, NameBytes, SoaNumbers, Printable, WellSized, ReadLong;
    AuthorityNames();
    TwoNames(LOCALHOST, HOSTMASTER, SoaNumbers(ttl));
    NumbersRead(NameBytes(LOCALHOST) + NameBytes(HOSTMASTER), ttl);
  }

  lemma NumbersRead(before: Bytes, ttl: nat)
    requires ttl < 0x1_0000_0000
    ensures var p, n := before + SoaNumbers(ttl), |before|;
            && ReadLong(p, n) == 1 && ReadLong(p, n + 4) == 60 && ReadLong(p, n + 8) == 60
            && ReadLong(p, n + 12) == 300 && ReadLong(p, n + 16) == ttl
  {
    hide ReadLong, SoaNumbers;
    var p, n := before + SoaNumbers(ttl), |before|;
    NumbersLaidOut(ttl);
    forall i | 0 <= i < 20 ensures p[n + i] == SoaNumbers(ttl)[i] {
    }
    NumberRead(p, n, ttl, 0, 1);
    NumberRead(p, n, ttl, 4, 60);
    NumberRead(p, n, ttl, 8, 60);
    NumberRead(p, n, ttl, 12, 300);
    NumberRead(p, n, ttl, 16, ttl);
  }

  lemma NumbersLaidOut(ttl: nat)
    requires ttl < 0x1_0000_0000
    ensures SoaNumbers(ttl)[0..4] == Long(1) && SoaNumbers(ttl)[4..8] == Long(60) && SoaNumbers(ttl)[8..12] == Long(60)
    ensures SoaNumbers(ttl)[12..16] == Long(300) && SoaNumbers(ttl)[16..20] == Long(ttl)
  {
    hide Long;
  }

  lemma NumberRead(p: Bytes, n: nat, ttl: nat, k: nat, number: nat)
    requires ttl < 0x1_0000_0000 && number < 0x1_0000_0000 && k <= 16 && n + 20 <= |p|
    requires forall i :: 0 <= i < 20 ==> p[n + i] == SoaNumbers(ttl)[i]
    requires SoaNumbers(ttl)[k..k + 4] == Long(number)
    ensures ReadLong(p, n + k) == number
  {
    hide ReadLong, SoaNumbers, Long;
    forall i | 0 <= i < 4 ensures p[n + k + i] == Long(number)[i] {
      assert p[n + (k + i)] == SoaNumbers(ttl)[k + i] == SoaNumbers(ttl)[k..k + 4][i];
    }
    LongReads(p, n + k, number);
  }

  lemma AuthorityNames()
    ensures Printable(LOCALHOST) && WellSized(LOCALHOST) && Printable(HOSTMASTER) && WellSized(HOSTMASTER)
  {
  }

  lemma TwoNames(one: seq<string>, two: seq<string>, numbers: Bytes)
    requires Printable(one) && WellSized(one) && Printable(two) && WellSized(two)
    ensures var p := NameBytes(one) + NameBytes(two) + numbers;
            && ParseLabels(p, 0) == Some((one, |NameBytes(one)|))
            && ParseLabels(p, |NameBytes(one)|) == Some((two, |p| - |numbers|))
  {
    hide ParseLabels, EncodedLabels, Printable, WellSized;
    var p := NameBytes(one) + NameBytes(two) + numbers;
    assert p[0..|NameBytes(one)|] == NameBytes(one);
    ParseEncoded(p, 0, one);
    ParseEncoded(p, |NameBytes(one)|, two);
  }
}
