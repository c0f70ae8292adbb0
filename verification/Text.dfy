/** Splitting text into lines and whitespace-separated fields. */
module Text {

  /** The characters that end a line. */
  predicate IsBreak(c: char) {
    c == '\n' || c == '\r' || c == '\U{B}' || c == '\U{C}' || c == '\U{1C}' || c == '\U{1D}' || c == '\U{1E}'
    || c == '\U{85}' || c == '\U{2028}' || c == '\U{2029}'
  }

  predicate IsSpace(c: char) {
    IsBreak(c) || c == ' ' || c == '\t' || c == '\U{1F}' || c == '\U{A0}' || c == '\U{1680}'
    || '\U{2000}' <= c <= '\U{200A}' || c == '\U{202F}' || c == '\U{205F}' || c == '\U{3000}'
  }

  ghost predicate OneLine(s: string) {
    forall c :: c in s ==> !IsBreak(c)
  }

  ghost predicate OneWord(s: string) {
    s != [] && forall c :: c in s ==> !IsSpace(c)
  }

  function BreakAt(s: string): (k: nat)
    ensures k <= |s| && (k < |s| ==> IsBreak(s[k]))
    ensures forall i :: 0 <= i < k ==> !IsBreak(s[i])
  {
    if s == [] || IsBreak(s[0]) then 0 else 1 + BreakAt(s[1..])
  }

  /** A carriage return followed by a line feed is one line end. */
  function BreakWidth(s: string, k: nat): (w: nat)
    requires k < |s|
    ensures w == 1 || (w == 2 && k + 2 <= |s|)
  {
    if s[k] == '\r' && k + 1 < |s| && s[k + 1] == '\n' then 2 else 1
  }

  ghost predicate EndsInLineFeed(s: string) {
    s != [] && s[|s| - 1] == '\n'
  }

  function FirstLine(s: string): string {
    s[..BreakAt(s)]
  }

  /** What follows the first line end, if there is one. */
  function After(s: string): (r: string)
    ensures s != [] ==> |r| < |s|
  {
    var k := BreakAt(s);
    if k == |s| then [] else s[k + BreakWidth(s, k)..]
  }

  function Lines(s: string): seq<string>
    decreases |s|
  {
    if s == [] then [] else [FirstLine(s)] + Lines(After(s))
  }

  /** A break before the end stays the first break when text follows. */
  lemma BreakAtAppend(a: string, b: string)
    requires BreakAt(a) < |a|
    ensures BreakAt(a + b) == BreakAt(a)
  {
    var k, m := BreakAt(a), BreakAt(a + b);
    hide BreakAt, IsBreak;
    assert (a + b)[k] == a[k];
    assert forall i :: 0 <= i < k ==> (a + b)[i] == a[i];
  }

  /** Text after a line feed does not change the first line. */
  lemma PeelAppend(a: string, b: string)
    requires BreakAt(a) < |a| && (EndsInLineFeed(a) || After(a) != [])
    ensures FirstLine(a + b) == FirstLine(a) && After(a + b) == After(a) + b
    ensures After(a) != [] ==> (EndsInLineFeed(After(a)) <==> EndsInLineFeed(a))
  {
    hide FirstLine, After, BreakAt, BreakWidth, IsBreak, Lines;
    var k := BreakAt(a);
    var n := k + BreakWidth(a, k);
    BreakAtAppend(a, b);
    WidthAtEnd(a, k);
    Shape(a, k, n);
    SameWidth(a, a + b, k);
    Shape(a + b, k, n);
    SliceAppend(a, b, k, n);
  }

  lemma Shape(s: string, k: nat, n: nat)
    requires k == BreakAt(s) < |s| && n == k + BreakWidth(s, k)
    ensures FirstLine(s) == s[..k] && After(s) == s[n..]
  {
  }

  lemma WidthAtEnd(s: string, k: nat)
    requires k < |s|
    ensures k + 1 == |s| ==> BreakWidth(s, k) == 1
    ensures k + 2 == |s| && BreakWidth(s, k) == 2 ==> s[|s| - 1] == '\n'
  {
  }

  lemma SameWidth(a: string, s: string, k: nat)
    requires k < |a| && k < |s| && a[k] == s[k]
    requires if k + 1 < |a| then k + 1 < |s| && s[k + 1] == a[k + 1] else a[k] != '\r'
    ensures BreakWidth(s, k) == BreakWidth(a, k)
  {
  }

  lemma SliceAppend(a: string, b: string, k: nat, n: nat)
    requires k <= n <= |a|
    ensures (a + b)[..k] == a[..k] && (a + b)[n..] == a[n..] + b
    ensures n < |a| ==> a[n..][|a[n..]| - 1] == a[|a| - 1]
  {
  }

  lemma UnfoldLines(s: string)
    requires s != []
    ensures Lines(s) == [FirstLine(s)] + Lines(After(s))
  {
  }

  lemma Regroup<T>(x: T, s: seq<T>, t: seq<T>)
    ensures [x] + (s + t) == ([x] + s) + t
  {
  }

  /** Lines of a text that ends in a line feed are unaffected by what follows. */
  lemma {:induction false} LinesAppend(a: string, b: string)
    requires a == [] || EndsInLineFeed(a)
    ensures Lines(a + b) == Lines(a) + Lines(b)
    decreases |a|
  {
    if a == [] {
      assert a + b == b;
    } else {
      UnfoldLines(a);
      UnfoldLines(a + b);
      hide *;
      PeelAppend(a, b);
      LinesAppend(After(a), b);
      Regroup(FirstLine(a), Lines(After(a)), Lines(b));
    }
  }

  lemma OneLineTerminated(l: string)
    requires OneLine(l)
    ensures Lines(l + "\n") == [l]
  {
    var s := l + "\n";
    var k := BreakAt(s);
    forall i | 0 <= i < |l| ensures !IsBreak(s[i]) {
      assert s[i] == l[i] && l[i] in l;
    }
    assert s[|l|] == '\n';
    assert s[..k] == l;
    assert s[k + 1..] == [];
    assert Lines([]) == [];
  }

  lemma UnendedLine(a: string)
    requires a != [] && BreakAt(a) == |a|
    ensures Lines(a + "\n") == Lines(a)
  {
    assert OneLine(a);
    assert FirstLine(a) == a && Lines([]) == [];
    OneLineTerminated(a);
  }

  /** A text of one ended line, not ended by a line feed. */
  lemma EndedLine(a: string)
    requires BreakAt(a) < |a| && After(a) == [] && !EndsInLineFeed(a)
    ensures Lines(a + "\n") == Lines(a) || Lines(a + "\n") == Lines(a) + [""]
  {
    hide FirstLine, After, BreakAt, BreakWidth, IsBreak;
    var k, s := BreakAt(a), a + "\n";
    BreakAtAppend(a, "\n");
    WidthAtEnd(a, k);
    Shape(a, k, k + BreakWidth(a, k));
    Shape(s, k, k + BreakWidth(s, k));
    SliceAppend(a, "\n", k, k + 1);
    OneLineTerminated("");
    assert Lines("") == [] && "" + "\n" == "\n";
    UnfoldLines(a);
    UnfoldLines(s);
    assert After(s) == "" || After(s) == "\n";
  }

  /** Terminating the last line adds at most an empty line. */
  lemma {:induction false} LinesNewline(a: string)
    requires a != [] && !EndsInLineFeed(a)
    ensures Lines(a + "\n") == Lines(a) || Lines(a + "\n") == Lines(a) + [""]
    decreases |a|
  {
    hide *;
    if BreakAt(a) == |a| {
      UnendedLine(a);
    } else if After(a) == [] {
      EndedLine(a);
    } else {
      PeelAppend(a, "\n");
      LinesNewline(After(a));
      UnfoldLines(a);
      UnfoldLines(a + "\n");
      Regroup(FirstLine(a), Lines(After(a)), [""]);
    }
  }

  lemma {:induction false} LinesAreOneLine(s: string)
    ensures forall l :: l in Lines(s) ==> OneLine(l)
    decreases |s|
  {
    if s != [] {
      assert OneLine(FirstLine(s));
      UnfoldLines(s);
      hide *;
      LinesAreOneLine(After(s));
    }
  }

  function WordEnd(s: string): (k: nat)
    ensures k <= |s| && (k < |s| ==> IsSpace(s[k]))
    ensures forall i :: 0 <= i < k ==> !IsSpace(s[i])
    ensures s != [] && !IsSpace(s[0]) ==> k > 0
  {
    if s == [] || IsSpace(s[0]) then 0 else 1 + WordEnd(s[1..])
  }

  function Fields(s: string): seq<string>
    decreases |s|
  {
    if s == [] then []
    else if IsSpace(s[0]) then Fields(s[1..])
    else [s[..WordEnd(s)]] + Fields(s[WordEnd(s)..])
  }

  lemma FieldsWord(w: string, rest: string)
    requires OneWord(w) && (rest == [] || IsSpace(rest[0]))
    ensures Fields(w + rest) == [w] + Fields(rest)
  {
    var s := w + rest;
    var k := WordEnd(s);
    assert !IsSpace(s[0]) by { assert s[0] == w[0] && w[0] in w; }
    forall i | 0 <= i < |w| ensures !IsSpace(s[i]) {
      assert s[i] == w[i] && w[i] in w;
    }
    assert |rest| > 0 ==> s[|w|] == rest[0];
    assert s[..|w|] == w && s[|w|..] == rest;
  }

  lemma FieldsSpace(c: char, rest: string)
    requires IsSpace(c)
    ensures Fields([c] + rest) == Fields(rest)
  {
    assert ([c] + rest)[1..] == rest;
  }

  lemma {:induction false} FieldsAreWords(s: string)
    ensures forall f :: f in Fields(s) ==> OneWord(f)
    decreases |s|
  {
    if s != [] {
      if IsSpace(s[0]) {
        FieldsAreWords(s[1..]);
      } else {
        FieldsAreWords(s[WordEnd(s)..]);
      }
    }
  }

  // ---------- Letter case ----------

  function LowerChar(c: char): char {
    if 'A' <= c <= 'Z' then (c as int + 32) as char else c
  }

  function Lower(s: string): (r: string)
    ensures |r| == |s| && forall i :: 0 <= i < |s| ==> r[i] == LowerChar(s[i])
  {
    seq(|s|, i requires 0 <= i < |s| => LowerChar(s[i]))
  }

  predicate Capital(c: char) {
    'A' <= c <= 'Z'
  }

  /** The same letter, capital or small. */
  predicate SameLetter(c: char, d: char) {
    || c == d
    || (Capital(c) && d as int - c as int == 'a' as int - 'A' as int)
    || (Capital(d) && c as int - d as int == 'a' as int - 'A' as int)
  }

  predicate SameButCase(s: string, t: string) {
    |s| == |t| && forall i :: 0 <= i < |s| ==> SameLetter(s[i], t[i])
  }

  lemma LowerDecides(s: string, t: string)
    ensures Lower(s) == Lower(t) <==> SameButCase(s, t)
    ensures forall i :: 0 <= i < |s| ==> !Capital(Lower(s)[i])
    ensures (forall c :: c in t ==> !Capital(c)) ==> Lower(t) == t
  {
    forall i | 0 <= i < |s| == |t| ensures Lower(s)[i] == Lower(t)[i] <==> SameLetter(s[i], t[i]) {
      assert LowerChar(s[i]) == LowerChar(t[i]) <==> SameLetter(s[i], t[i]);
    }
    if SameButCase(s, t) {
      assert Lower(s) == Lower(t);
    }
    if forall c :: c in t ==> !Capital(c) {
      forall i | 0 <= i < |t| ensures Lower(t)[i] == t[i] {
        assert t[i] in t;
      }
    }
  }
}
