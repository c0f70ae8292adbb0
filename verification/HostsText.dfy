/** Reading a hosts file for a name, and rendering the temporary pin line. */
module HostsText {
  import opened Wrappers
  import opened Text

  datatype Entry = Entry(lineNumber: nat, address: string, line: string)

  function BeforeHash(line: string): string {
    if line == [] || line[0] == '#' then [] else [line[0]] + BeforeHash(line[1..])
  }

  /** The entry a line gives for a name, ignoring comments. */
  function EntryOf(line: string, lineNumber: nat, target: string): seq<Entry> {
    var fields := Fields(BeforeHash(line));
    if |fields| >= 2 && target in fields[1..] then [Entry(lineNumber, fields[0], line)] else []
  }

  function EntriesFrom(lines: seq<string>, first: nat, target: string): seq<Entry> {
    if lines == [] then [] else EntryOf(lines[0], first, target) + EntriesFrom(lines[1..], first + 1, target)
  }

  /** All entries of a hosts file for one name. */
  function Entries(content: string, target: string): seq<Entry> {
    EntriesFrom(Lines(content), 1, target)
  }

  /** The line names the target behind its address, before any comment. */
  predicate Names(line: string, target: string) {
    var fields := Fields(BeforeHash(line));
    exists i :: 1 <= i < |fields| && fields[i] == target
  }

  /** The entry tells a line that names the target, and the address the line gives. */
  predicate Tells(e: Entry, line: string, target: string) {
    e.line == line && Names(line, target) && e.address == Fields(BeforeHash(line))[0]
  }

  /** One entry for each line that names the target, with its number, in order. */
  ghost predicate Lists(entries: seq<Entry>, lines: seq<string>, first: nat, target: string) {
    && (forall e :: e in entries ==>
          first <= e.lineNumber < first + |lines| && Tells(e, lines[e.lineNumber - first], target))
    && (forall i :: 0 <= i < |lines| && Names(lines[i], target) ==> exists e :: e in entries && e.lineNumber == first + i)
    && (forall i, j :: 0 <= i < j < |entries| ==> entries[i].lineNumber < entries[j].lineNumber)
  }

  lemma {:induction false} EntriesList(lines: seq<string>, first: nat, target: string)
    ensures Lists(EntriesFrom(lines, first, target), lines, first, target)
    decreases |lines|
  {
    hide EntryOf, Lists;
    if lines != [] {
      EntriesList(lines[1..], first + 1, target);
      LineEntry(lines[0], first, target);
      ListsOneMore(EntryOf(lines[0], first, target), EntriesFrom(lines[1..], first + 1, target), lines, first, target);
    } else {
      NothingListed(first, target);
    }
  }

  lemma NothingListed(first: nat, target: string)
    ensures Lists([], [], first, target)
  {
  }

  lemma LineEntry(line: string, n: nat, target: string)
    ensures var entry := EntryOf(line, n, target);
            if Names(line, target) then |entry| == 1 && entry[0].lineNumber == n && Tells(entry[0], line, target) else entry == []
  {
    hide Fields, BeforeHash;
    var fields := Fields(BeforeHash(line));
    if Names(line, target) {
      var i :| 1 <= i < |fields| && fields[i] == target;
      assert fields[1..][i - 1] == target;
    }
  }

  lemma ListsOneMore(entry: seq<Entry>, rest: seq<Entry>, lines: seq<string>, first: nat, target: string)
    requires lines != [] && Lists(rest, lines[1..], first + 1, target)
    requires if Names(lines[0], target) then |entry| == 1 && entry[0].lineNumber == first && Tells(entry[0], lines[0], target)
             else entry == []
    ensures Lists(entry + rest, lines, first, target)
  {
    hide Fields, BeforeHash, Names, Tells;
    var all := entry + rest;
    forall i | 0 <= i < |lines| && Names(lines[i], target) ensures exists e :: e in all && e.lineNumber == first + i {
      if i == 0 {
        assert entry[0] in all;
      } else {
        assert lines[i] == lines[1..][i - 1];
        var e :| e in rest && e.lineNumber == first + 1 + (i - 1);
        assert e in all;
      }
    }
    forall e | e in all ensures first <= e.lineNumber < first + |lines| && Tells(e, lines[e.lineNumber - first], target) {
      if e in rest {
        assert lines[1..][e.lineNumber - (first + 1)] == lines[e.lineNumber - first];
      }
    }
    forall i | 0 <= i < |rest| ensures first < rest[i].lineNumber {
      assert rest[i] in rest;
    }
  }

  lemma OneEntry(line: string, n: nat, target: string)
    ensures EntriesFrom([line], n, target) == EntryOf(line, n, target)
  {
    assert [line][1..] == [];
  }

  method HostsTargetEntries(content: string, target: string) returns (entries: seq<Entry>)
    ensures entries == Entries(content, target)
    ensures Lists(entries, Lines(content), 1, target)
  {
    hide Lines, Fields, BeforeHash, Lists;
    entries := [];
    var lines := Lines(content);
    assert lines[..|lines|] == lines;
    for i := 0 to |lines|
      invariant entries == EntriesFrom(lines[..i], 1, target)
    {
      EntriesAppend(lines[..i], [lines[i]], 1, target);
      assert lines[..i + 1] == lines[..i] + [lines[i]];
      OneEntry(lines[i], i + 1, target);
      var fields := Fields(BeforeHash(lines[i]));
      if |fields| >= 2 && target in fields[1..] {
        entries := entries + [Entry(i + 1, fields[0], lines[i])];
      }
    }
    EntriesList(lines, 1, target);
  }

  predicate HostChar(c: char) {
    'a' <= c <= 'z' || 'A' <= c <= 'Z' || '0' <= c <= '9' || c == '.' || c == '-'
  }

  predicate HostName(s: string) {
    s != [] && forall c :: c in s ==> HostChar(c)
  }

  function Join(targets: seq<string>): string {
    if targets == [] then []
    else if |targets| == 1 then targets[0]
    else targets[0] + " " + Join(targets[1..])
  }

  function PinLine(pin: string, targets: seq<string>, comment: string): string {
    pin + "\t" + Join(targets) + "\t# " + comment
  }

  predicate NoDuplicates(targets: seq<string>) {
    forall i, j :: 0 <= i < j < |targets| ==> targets[i] != targets[j]
  }

  predicate Acceptable(content: string, targets: seq<string>) {
    && targets != [] && NoDuplicates(targets)
    && forall t :: t in targets ==> HostName(t) && Entries(content, t) == []
  }

  function Separator(content: string): string {
    if content == [] || content[|content| - 1] == '\n' then "" else "\n"
  }

  /** The rendered file with its pin line. */
  function Rendered(content: string, targets: seq<string>, pin: string, comment: string): string {
    content + Separator(content) + PinLine(pin, targets, comment) + "\n"
  }

  /** Appends the pin line, unless the name set is unusable or a name is already present. */
  method RenderHostsOverride(content: string, targets: seq<string>, pin: string, comment: string)
    returns (r: Option<string>)
    ensures r == if Acceptable(content, targets) then Some(Rendered(content, targets, pin, comment)) else None
  {
    hide HostName, Lists, Entries, PinLine, Lines;
    if targets == [] || !NoDuplicates(targets) {
      return None;
    }
    for i := 0 to |targets|
      invariant forall k :: 0 <= k < i ==> HostName(targets[k]) && Entries(content, targets[k]) == []
    {
      assert targets[i] in targets;
      if !HostName(targets[i]) {
        return None;
      }
      var entries := HostsTargetEntries(content, targets[i]);
      if entries != [] {
        return None;
      }
    }
    r := Some(content + Separator(content) + PinLine(pin, targets, comment) + "\n");
  }

  // ---------- What the rendered file says ----------

  lemma {:induction false} EntriesAppend(a: seq<string>, b: seq<string>, first: nat, target: string)
    ensures EntriesFrom(a + b, first, target) == EntriesFrom(a, first, target) + EntriesFrom(b, first + |a|, target)
  {
    hide EntryOf;
    if a == [] {
      assert a + b == b;
    } else {
      assert (a + b)[1..] == a[1..] + b;
      EntriesAppend(a[1..], b, first + 1, target);
    }
  }

  lemma HostWords(s: string)
    requires HostName(s)
    ensures OneWord(s) && OneLine(s) && forall c :: c in s ==> c != '#'
  {
    assert forall c :: HostChar(c) ==> !IsSpace(c) && !IsBreak(c) && c != '#';
  }

  lemma {:induction false} BeforeHashStops(a: string, b: string)
    requires forall c :: c in a ==> c != '#'
    requires b == [] || b[0] == '#'
    ensures BeforeHash(a + b) == a
  {
    if a == [] {
      assert a + b == b;
    } else {
      assert a[0] in a;
      assert forall c :: c in a[1..] ==> c in a;
      assert (a + b)[1..] == a[1..] + b;
      BeforeHashStops(a[1..], b);
    }
  }

  lemma JoinHead(targets: seq<string>)
    requires targets != []
    ensures Join(targets) + "\t"
         == targets[0] + (if |targets| == 1 then ['\t'] + "" else [' '] + (Join(targets[1..]) + "\t"))
  {
    assert "\t" == ['\t'] + "" && " " == [' '];
    if |targets| > 1 {
      var head, tail := targets[0], Join(targets[1..]);
      assert Join(targets) == head + " " + tail;
      hide *;
    }
  }

  lemma {:induction false} JoinNoBreak(targets: seq<string>)
    requires forall t :: t in targets ==> HostName(t)
    ensures forall c :: c in Join(targets) ==> c != '#' && !IsBreak(c)
  {
    if targets != [] {
      assert targets[0] in targets;
      HostWords(targets[0]);
      JoinNoBreak(targets[1..]);
    }
  }

  lemma {:induction false} JoinFields(targets: seq<string>)
    requires forall t :: t in targets ==> HostName(t)
    ensures Fields(Join(targets) + "\t") == targets
  {
    hide Fields, Join, HostName;
    if targets == [] {
      FieldsSpace('\t', "");
      NoFields();
      assert Join(targets) + "\t" == ['\t'] + "";
    } else {
      assert targets[0] in targets;
      HostWords(targets[0]);
      JoinHead(targets);
      NoFields();
      FieldsSpace('\t', "");
      FieldsSpace(' ', Join(targets[1..]) + "\t");
      FieldsWord(targets[0], if |targets| == 1 then ['\t'] + "" else [' '] + (Join(targets[1..]) + "\t"));
      JoinFields(targets[1..]);
      assert targets == [targets[0]] + targets[1..];
    }
  }

  lemma NoFields()
    ensures Fields("") == [] && Join([]) == ""
  {
  }

  lemma PinLineFields(pin: string, targets: seq<string>, comment: string)
    requires HostName(pin) && (forall t :: t in targets ==> HostName(t)) && OneLine(comment)
    ensures Fields(BeforeHash(PinLine(pin, targets, comment))) == [pin] + targets
    ensures OneLine(PinLine(pin, targets, comment))
  {
    HostWords(pin);
    JoinFields(targets);
    JoinNoBreak(targets);
    hide Fields, BeforeHash, Join, HostName;
    var names := Join(targets) + "\t";
    PinLineSplit(pin, Join(targets), comment);
    BeforeHashStops(pin + (['\t'] + names), "# " + comment);
    FieldsWord(pin, ['\t'] + names);
    FieldsSpace('\t', names);
  }

  lemma PinLineSplit(pin: string, names: string, comment: string)
    ensures pin + "\t" + names + "\t# " + comment == (pin + (['\t'] + (names + "\t"))) + ("# " + comment)
  {
    assert "\t" == ['\t'] && "\t# " == "\t" + "# ";
    var start := pin + "\t" + names;
  }

  lemma SeparatedEntries(content: string, target: string)
    ensures Entries(content + Separator(content), target) == Entries(content, target)
    ensures var c := content + Separator(content); c == [] || c[|c| - 1] == '\n'
  {
    hide Lines, EntriesFrom;
    if Separator(content) == "" {
      assert content + "" == content;
    } else {
      LinesNewline(content);
      EntriesAppend(Lines(content), [""], 1, target);
      EmptyLineHasNone(1 + |Lines(content)|, target);
    }
  }

  lemma EmptyLineHasNone(n: nat, target: string)
    ensures EntriesFrom([""], n, target) == []
  {
    OneEntry("", n, target);
    assert BeforeHash("") == "" && Fields("") == [];
  }

  /** The rendered file keeps the baseline as a prefix, ends with the comment, gives every
      pinned name exactly one entry, with the pin's address, and every other name the entries
      it had. */
  lemma RenderedPinsExactly(content: string, targets: seq<string>, pin: string, comment: string, name: string)
    requires Acceptable(content, targets) && HostName(pin) && OneLine(comment)
    ensures var out := Rendered(content, targets, pin, comment);
            && content <= out && content != out
            && |comment| + 3 <= |out| && out[|out| - |comment| - 3..] == "# " + comment + "\n"
            && (name in targets ==> |Entries(out, name)| == 1 && Entries(out, name)[0].address == pin)
            && (name !in targets ==> Entries(out, name) == Entries(content, name))
  {
    hide Fields, BeforeHash, Lines, EntryOf, EntriesFrom, PinLine, Separator, HostName;
    RenderedEnds(content, targets, pin, comment);
    var base, line := content + Separator(content), PinLine(pin, targets, comment);
    PinLineFields(pin, targets, comment);
    SeparatedEntries(content, name);
    LineAdded(base, line, name);
    assert base + line + "\n" == base + (line + "\n");
    PinEntry(line, 1 + |Lines(base)|, pin, targets, name);
    if name in targets {
      assert Entries(content, name) == [];
    }
  }

  lemma RenderedEnds(content: string, targets: seq<string>, pin: string, comment: string)
    ensures var out := Rendered(content, targets, pin, comment);
            && content <= out && content != out
            && |comment| + 3 <= |out| && out[|out| - |comment| - 3..] == "# " + comment + "\n"
  {
    hide Join;
    var names := pin + "\t" + Join(targets) + "\t";
    assert "\t# " == "\t" + "# ";
    assert Rendered(content, targets, pin, comment) == content + Separator(content) + names + ("# " + comment + "\n");
  }

  /** A line added behind a line feed adds its own entry. */
  lemma LineAdded(base: string, line: string, name: string)
    requires (base == [] || base[|base| - 1] == '\n') && OneLine(line)
    ensures Entries(base + (line + "\n"), name) == Entries(base, name) + EntryOf(line, 1 + |Lines(base)|, name)
  {
    hide Lines, EntryOf, EntriesFrom;
    LinesAppend(base, line + "\n");
    OneLineTerminated(line);
    EntriesAppend(Lines(base), [line], 1, name);
    OneEntry(line, 1 + |Lines(base)|, name);
  }

  lemma PinEntry(line: string, n: nat, pin: string, targets: seq<string>, name: string)
    requires Fields(BeforeHash(line)) == [pin] + targets && targets != []
    ensures EntryOf(line, n, name) == if name in targets then [Entry(n, pin, line)] else []
  {
    hide Fields, BeforeHash;
    assert ([pin] + targets)[1..] == targets;
  }
}
