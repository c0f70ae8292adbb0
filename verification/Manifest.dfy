/** The hash manifest that closes an attempt directory, and its sidecar, as text. */
module Manifest {
  import opened Wrappers
  import opened Text

  // A directory maps the relative paths of its files to their contents.
  type Files = map<string, string>

  type Hash = string -> string

  predicate HexDigit(c: char) {
    '0' <= c <= '9' || 'a' <= c <= 'f' || 'A' <= c <= 'F'
  }

  /** A digest is printed as 64 lower-case hexadecimal digits. */
  ghost predicate Digest(h: Hash) {
    && (forall x :: |h(x)| == 64)
    && (forall x, c :: c in h(x) ==> HexDigit(c) && !('A' <= c <= 'F'))
  }

  function Repeated(c: char, n: nat): (s: string)
    ensures |s| == n && forall d :: d in s ==> d == c
  {
    if n == 0 then [] else [c] + Repeated(c, n - 1)
  }

  lemma SomeDigest()
    ensures exists h: Hash :: Digest(h)
  {
    var h: Hash := x => Repeated(if x == [] then '0' else 'f', 64);
    assert Digest(h);
  }

  /** The hash tells apart every two contents a path has in the two directories. */
  ghost predicate NoCollision(h: Hash, files: Files, later: Files) {
    forall p :: p in files && p in later && h(files[p]) == h(later[p]) ==> files[p] == later[p]
  }

  lemma LowerDigest(h: Hash, x: string)
    requires Digest(h)
    ensures Lower(h(x)) == h(x)
  {
    forall i | 0 <= i < |h(x)| ensures Lower(h(x))[i] == h(x)[i] {
      assert h(x)[i] in h(x) && HexDigit(h(x)[i]);
    }
  }

  /** A recorded digest is compared without regard to letter case. */
  lemma DigestCase(h: Hash, x: string, text: string)
    requires Digest(h)
    ensures h(x) == Lower(text) <==> SameButCase(h(x), text)
  {
    LowerDigest(h, x);
    LowerDecides(h(x), text);
  }

  // ---------- Paths ----------

  function BaseName(path: string): string {
    if path == [] || path[|path| - 1] == '/' then [] else BaseName(path[..|path| - 1]) + [path[|path| - 1]]
  }

  predicate EndsWith(s: string, suffix: string) {
    |suffix| <= |s| && s[|s| - |suffix|..] == suffix
  }

  const SIDECAR_SUFFIX := ".sha256"

  /** Files the manifest never covers, at any depth. */
  predicate Excluded(path: string) {
    var name := BaseName(path);
    name == "capture.pid" || name == "manifest.sha256" || name == "manifest.sha256.sha256" || EndsWith(name, SIDECAR_SUFFIX)
  }

  function Parts(path: string): (parts: seq<string>)
    ensures parts != []
  {
    if path == [] then [[]]
    else
      var rest := Parts(path[1..]);
      if path[0] == '/' then [[]] + rest else [[path[0]] + rest[0]] + rest[1..]
  }

  predicate Unsafe(path: string) {
    (path != [] && path[0] == '/') || ".." in Parts(path)
  }

  lemma {:induction false} NameBehindSlash(dir: string, name: string)
    requires '/' !in name
    ensures BaseName(dir + "/" + name) == name
  {
    var path := dir + "/" + name;
    if name == [] {
      assert path[|path| - 1] == '/';
    } else {
      var n := |name| - 1;
      NameBehindSlash(dir, name[..n]);
      assert path[..|path| - 1] == dir + "/" + name[..n] && name == name[..n] + [name[n]];
      assert path[|path| - 1] == name[n] && name[n] in name;
    }
  }

  /** Excluded are, in any directory, the three fixed names and every other sidecar. */
  lemma ExcludedAnywhere(dir: string, name: string)
    requires '/' !in name
    ensures Excluded(dir + "/" + name) == Excluded(name)
    ensures Excluded(name) <==> name == "capture.pid" || name == MANIFEST || exists stem :: name == stem + ".sha256"
  {
    hide BaseName;
    NameBehindSlash(dir, name);
    NoSlash(name);
    if EndsWith(name, SIDECAR_SUFFIX) {
      assert name == name[..|name| - |SIDECAR_SUFFIX|] + ".sha256";
    }
    assert MANIFEST_SIDECAR == MANIFEST + ".sha256";
    if stem :| name == stem + ".sha256" {
      assert name[|stem|..] == ".sha256" == SIDECAR_SUFFIX;
    }
  }

  function JoinParts(parts: seq<string>): string {
    if parts == [] then []
    else if |parts| == 1 then parts[0]
    else parts[0] + "/" + JoinParts(parts[1..])
  }

  /** A path has one list of parts without slashes. */
  lemma {:induction false} PartsOfJoined(parts: seq<string>)
    requires parts != [] && forall part :: part in parts ==> '/' !in part
    ensures Parts(JoinParts(parts)) == parts
    decreases |parts|, |parts[0]|
  {
    var path, first := JoinParts(parts), parts[0];
    assert first in parts;
    if first == [] {
      if |parts| > 1 {
        PartsOfJoined(parts[1..]);
        assert path[1..] == JoinParts(parts[1..]);
        assert parts == [[]] + parts[1..];
      }
    } else {
      var shorter := [first[1..]] + parts[1..];
      PartsOfJoined(shorter);
      assert shorter[1..] == parts[1..];
      assert path == [first[0]] + JoinParts(shorter);
      assert first == [first[0]] + first[1..] && parts == [first] + parts[1..];
    }
  }

  /** What every path below a directory is: nonempty, relative and without parent steps. */
  ghost predicate Directory(files: Files) {
    forall p :: p in files ==> p != [] && !Unsafe(p)
  }

  function Kept(files: Files): Files {
    map p | p in files && !Excluded(p) :: files[p]
  }

  // ---------- Writing ----------

  function ManifestLine(h: Hash, content: string, path: string): string {
    h(content) + "  " + path
  }

  function ManifestText(h: Hash, files: Files, paths: seq<string>): string
    requires forall p :: p in paths ==> p in files
  {
    if paths == [] then []
    else
      var n := |paths| - 1;
      ManifestText(h, files, paths[..n]) + (ManifestLine(h, files[paths[n]], paths[n]) + "\n")
  }

  /** The sorted directory walk lists every file once. */
  ghost predicate Listing(listing: seq<string>, files: Files) {
    forall p :: p in listing <==> p in files
  }

  function KeptPaths(listing: seq<string>): seq<string> {
    if listing == [] then []
    else
      var n := |listing| - 1;
      KeptPaths(listing[..n]) + if Excluded(listing[n]) then [] else [listing[n]]
  }

  lemma {:induction false} KeptPathsElements(listing: seq<string>)
    ensures forall p :: p in KeptPaths(listing) <==> p in listing && !Excluded(p)
  {
    if listing != [] {
      var n := |listing| - 1;
      KeptPathsElements(listing[..n]);
      assert listing == listing[..n] + [listing[n]];
    }
  }

  ghost predicate Ordered(paths: seq<string>, before: (string, string) -> bool) {
    forall i, j :: 0 <= i < j < |paths| ==> before(paths[i], paths[j])
  }

  /** The covered files are listed in the order of the walk. */
  lemma {:induction false} KeptPathsOrdered(listing: seq<string>, before: (string, string) -> bool)
    requires Ordered(listing, before)
    ensures Ordered(KeptPaths(listing), before)
  {
    if listing != [] {
      var n := |listing| - 1;
      KeptPathsOrdered(listing[..n], before);
      KeptPathsElements(listing[..n]);
      var kept := KeptPaths(listing[..n]);
      forall p | p in kept ensures before(p, listing[n]) {
        var k :| 0 <= k < n && listing[k] == p;
      }
      assert forall i :: 0 <= i < |kept| ==> kept[i] in kept;
    }
  }

  const MANIFEST := "manifest.sha256"
  const MANIFEST_SIDECAR := "manifest.sha256.sha256"

  /** The directory with its manifest and the manifest's sidecar. */
  function Closed(files: Files, h: Hash, paths: seq<string>): Files
    requires forall p :: p in paths ==> p in files
  {
    var text := ManifestText(h, files, paths);
    files[MANIFEST := text][MANIFEST_SIDECAR := SidecarText(h, MANIFEST, text)]
  }

  /** Closes a directory; refuses one already finalized or without raw artifacts. */
  method Finalize(files: Files, listing: seq<string>, h: Hash) returns (r: Result<Files, string>)
    requires Listing(listing, files)
    ensures forall p :: p in KeptPaths(listing) <==> p in Kept(files)
    ensures if MANIFEST in files || KeptPaths(listing) == [] then r.Failure?
            else r == Success(Closed(files, h, KeptPaths(listing)))
  {
    hide Excluded, SidecarText, ManifestText;
    KeptPathsElements(listing);
    if MANIFEST in files {
      return Failure("attempt is already finalized");
    }
    var kept := KeepPaths(listing);
    if kept == [] {
      return Failure("attempt contains no raw artifacts");
    }
    var text := WriteLines(files, kept, h);
    r := Success(files[MANIFEST := text][MANIFEST_SIDECAR := SidecarText(h, MANIFEST, text)]);
  }

  method KeepPaths(listing: seq<string>) returns (kept: seq<string>)
    ensures kept == KeptPaths(listing)
  {
    hide Excluded;
    kept := [];
    for i := 0 to |listing|
      invariant kept == KeptPaths(listing[..i])
    {
      assert listing[..i + 1][..i] == listing[..i];
      if !Excluded(listing[i]) {
        kept := kept + [listing[i]];
      }
    }
    assert listing[..|listing|] == listing;
  }

  method WriteLines(files: Files, kept: seq<string>, h: Hash) returns (text: string)
    requires forall p :: p in kept ==> p in files
    ensures text == ManifestText(h, files, kept)
  {
    hide ManifestLine;
    text := [];
    assert kept[..0] == [];
    for i := 0 to |kept|
      invariant text == ManifestText(h, files, kept[..i])
    {
      assert kept[..i + 1][..i] == kept[..i];
      text := text + (ManifestLine(h, files[kept[i]], kept[i]) + "\n");
    }
    assert kept[..|kept|] == kept;
  }

  // ---------- Verifying ----------

  datatype Listed = Listed(digest: string, path: string)

  /** 64 hexadecimal digits, two spaces, and a nonempty path. */
  function ParseLine(line: string): Option<Listed> {
    if |line| < 67 || (exists i :: 0 <= i < 64 && !HexDigit(line[i])) || line[64..66] != "  " then None
    else Some(Listed(line[..64], line[66..]))
  }

  /** A line is read exactly when it is such a digest, two spaces and a path. */
  lemma ParseLineIff(line: string, l: Listed)
    ensures ParseLine(line) == Some(l) <==>
            line == l.digest + "  " + l.path && |l.digest| == 64 && (forall c :: c in l.digest ==> HexDigit(c)) && l.path != []
  {
    if ParseLine(line) == Some(l) {
      assert line == line[..64] + line[64..66] + line[66..];
      forall c | c in l.digest ensures HexDigit(c) {
        var i :| 0 <= i < 64 && line[..64][i] == c;
      }
    }
    if line == l.digest + "  " + l.path && |l.digest| == 64 && (forall c :: c in l.digest ==> HexDigit(c)) && l.path != [] {
      assert line[..64] == l.digest && line[64..66] == "  " && line[66..] == l.path;
      forall i | 0 <= i < 64 ensures HexDigit(line[i]) {
        assert line[i] == l.digest[i] && l.digest[i] in l.digest;
      }
    }
  }

  predicate Blank(line: string) {
    forall c :: c in line ==> IsSpace(c)
  }

  predicate LineHolds(line: string, files: Files, h: Hash) {
    var listed := ParseLine(line);
    && listed.Some? && !Unsafe(listed.value.path)
    && listed.value.path in files
    && h(files[listed.value.path]) == Lower(listed.value.digest)
  }

  function ListedPaths(lines: seq<string>): set<string> {
    set l | l in lines && !Blank(l) && ParseLine(l).Some? :: ParseLine(l).value.path
  }

  /** Every line holds, and the listed paths are exactly the covered files. */
  predicate Verifies(files: Files, manifest: string, h: Hash) {
    var lines := Lines(manifest);
    && (forall l :: l in lines && !Blank(l) ==> LineHolds(l, files, h))
    && ListedPaths(lines) == Kept(files).Keys
  }

  /** The manifest is there and its sidecar verifies. */
  predicate Attested(files: Files, h: Hash) {
    && MANIFEST in files && MANIFEST_SIDECAR in files
    && SidecarVerifies(h, MANIFEST, files[MANIFEST], files[MANIFEST_SIDECAR])
  }

  /** What the verification of an attempt directory demands. */
  predicate Passes(files: Files, h: Hash) {
    Attested(files, h) && Verifies(files, files[MANIFEST], h)
  }

  method VerifyAttempt(files: Files, h: Hash) returns (r: Result<map<string, string>, string>)
    ensures r.Success? <==> Passes(files, h)
    ensures r.Success? ==> r.value == map p | p in Kept(files) :: h(files[p])
  {
    hide Lines, Blank, ParseLine, Unsafe, Excluded, Lower, SidecarVerifies;
    if MANIFEST_SIDECAR !in files {
      return Failure("SHA-256 sidecar missing");
    }
    if MANIFEST !in files || !SidecarVerifies(h, MANIFEST, files[MANIFEST], files[MANIFEST_SIDECAR]) {
      return Failure("invalid SHA-256 sidecar or mismatch");
    }
    r := VerifyLines(files, files[MANIFEST], h);
  }

  method VerifyLines(files: Files, manifest: string, h: Hash) returns (r: Result<map<string, string>, string>)
    ensures r.Success? <==> Verifies(files, manifest, h)
    ensures r.Success? ==> r.value == map p | p in Kept(files) :: h(files[p])
  {
    hide Lines, Blank, ParseLine, Unsafe, Excluded, Lower;
    var lines := Lines(manifest);
    var verified: map<string, string> := map[];
    for i := 0 to |lines|
      invariant forall l :: l in lines[..i] && !Blank(l) ==> LineHolds(l, files, h)
      invariant verified.Keys == ListedPaths(lines[..i])
      invariant forall p :: p in verified ==> p in files && verified[p] == h(files[p])
    {
      assert lines[..i + 1] == lines[..i] + [lines[i]];
      assert lines[i] in lines;
      if Blank(lines[i]) {
        continue;
      }
      var listed := ParseLine(lines[i]);
      if listed.None? {
        return Failure("invalid attempt manifest line");
      }
      if Unsafe(listed.value.path) {
        return Failure("unsafe manifest path");
      }
      if listed.value.path !in files {
        return Failure("manifest artifact missing");
      }
      var actual := h(files[listed.value.path]);
      if actual != Lower(listed.value.digest) {
        return Failure("attempt artifact hash mismatch");
      }
      verified := verified[listed.value.path := actual];
    }
    assert lines[..|lines|] == lines;
    if verified.Keys != Kept(files).Keys {
      return Failure("attempt manifest is not closed over raw artifacts");
    }
    r := Success(verified);
  }

  // ---------- The round trip ----------

  function ManifestLines(h: Hash, files: Files, paths: seq<string>): seq<string>
    requires forall p :: p in paths ==> p in files
  {
    seq(|paths|, i requires 0 <= i < |paths| => assert paths[i] in paths; ManifestLine(h, files[paths[i]], paths[i]))
  }

  lemma DigestOneLine(h: Hash, content: string, path: string)
    requires Digest(h) && OneLine(path)
    ensures OneLine(ManifestLine(h, content, path))
  {
    assert forall c :: HexDigit(c) ==> !IsBreak(c);
  }

  lemma {:induction false} TextLines(h: Hash, files: Files, paths: seq<string>)
    requires Digest(h) && forall p :: p in paths ==> p in files && OneLine(p)
    ensures Lines(ManifestText(h, files, paths)) == ManifestLines(h, files, paths)
    ensures var t := ManifestText(h, files, paths); t == [] || t[|t| - 1] == '\n'
  {
    hide Lines, ManifestLine, OneLine, Digest;
    if paths != [] {
      var n := |paths| - 1;
      var before, last := paths[..n], paths[n];
      assert last in paths;
      forall p | p in before ensures p in files && OneLine(p) {
        assert p in paths;
      }
      TextLines(h, files, before);
      DigestOneLine(h, files[last], last);
      var line := ManifestLine(h, files[last], last);
      OneLineTerminated(line);
      LinesAppend(ManifestText(h, files, before), line + "\n");
      assert ManifestLines(h, files, paths) == ManifestLines(h, files, before) + [line];
    } else {
      NoLines();
    }
  }

  lemma NoLines()
    ensures Lines([]) == []
  {
  }

  lemma LineParses(h: Hash, content: string, path: string)
    requires Digest(h) && path != []
    ensures ParseLine(ManifestLine(h, content, path)) == Some(Listed(h(content), path))
    ensures !Blank(ManifestLine(h, content, path))
  {
    var line := ManifestLine(h, content, path);
    assert line[..64] == h(content) && line[64..66] == "  " && line[66..] == path;
    forall i | 0 <= i < 64 ensures HexDigit(line[i]) {
      assert line[i] == h(content)[i] && h(content)[i] in h(content);
    }
    assert line[0] in line && HexDigit(line[0]);
    assert forall c :: HexDigit(c) ==> !IsSpace(c);
  }

  /** The lines carry exactly the paths, each with the digest of its file. */
  ghost predicate Describes(lines: seq<string>, h: Hash, files: Files, paths: seq<string>) {
    && (forall p :: p in paths ==> p in files)
    && (forall l :: l in lines ==> !Blank(l) && ParseLine(l).Some? && ParseLine(l).value.path in paths
                                   && Lower(ParseLine(l).value.digest) == h(files[ParseLine(l).value.path]))
    && (forall p :: p in paths ==> exists l :: l in lines && ParseLine(l).Some? && ParseLine(l).value.path == p)
  }

  lemma TextDescribes(h: Hash, files: Files, paths: seq<string>)
    requires Digest(h) && forall p :: p in paths ==> p in files && OneLine(p) && p != []
    ensures Describes(Lines(ManifestText(h, files, paths)), h, files, paths)
  {
    hide Lines, ManifestLine, Blank, ParseLine, Digest;
    var lines := ManifestLines(h, files, paths);
    TextLines(h, files, paths);
    forall i | 0 <= i < |lines|
      ensures lines[i] in lines && !Blank(lines[i]) && ParseLine(lines[i]) == Some(Listed(h(files[paths[i]]), paths[i]))
      ensures Lower(h(files[paths[i]])) == h(files[paths[i]])
    {
      assert paths[i] in paths;
      LineParses(h, files[paths[i]], paths[i]);
      LowerDigest(h, files[paths[i]]);
    }
    forall p | p in paths ensures exists l :: l in lines && ParseLine(l).Some? && ParseLine(l).value.path == p {
      var i :| 0 <= i < |paths| && paths[i] == p;
      assert ParseLine(lines[i]).Some?;
    }
  }

  lemma DescribedPaths(lines: seq<string>, h: Hash, files: Files, paths: seq<string>)
    requires Describes(lines, h, files, paths)
    ensures ListedPaths(lines) == set p | p in paths
  {
    hide Blank, ParseLine;
    forall p | p in paths ensures p in ListedPaths(lines) {
      var l :| l in lines && ParseLine(l).Some? && ParseLine(l).value.path == p;
    }
  }

  /** The covered paths are the same, with equal hashes. */
  ghost predicate SameHashes(h: Hash, files: Files, later: Files) {
    Kept(later).Keys == Kept(files).Keys && forall p :: p in Kept(files) ==> h(later[p]) == h(files[p])
  }

  /** For any hash at all: when every covered name fits on one line, the manifest verifies
      exactly against the directories with the finalized paths and hashes. */
  lemma VerifiesIffSameHashes(h: Hash, files: Files, paths: seq<string>, later: Files)
    requires Digest(h) && Directory(files)
    requires forall p :: p in paths <==> p in Kept(files)
    requires forall p :: p in paths ==> OneLine(p)
    ensures Verifies(later, ManifestText(h, files, paths), h) <==> SameHashes(h, files, later)
  {
    hide Lines, ManifestLine, Blank, ParseLine, Unsafe, OneLine, Excluded;
    var lines := Lines(ManifestText(h, files, paths));
    TextDescribes(h, files, paths);
    DescribedPaths(lines, h, files, paths);
    if Verifies(later, ManifestText(h, files, paths), h) {
      VerifiedSame(h, files, paths, lines, later);
    }
    if SameHashes(h, files, later) {
      SameHolds(h, files, paths, lines, later);
    }
  }

  /** Lines that describe the files and hold for later ones fix every later hash. */
  lemma VerifiedSame(h: Hash, files: Files, paths: seq<string>, lines: seq<string>, later: Files)
    requires Describes(lines, h, files, paths) && forall p :: p in paths <==> p in Kept(files)
    requires forall l :: l in lines && !Blank(l) ==> LineHolds(l, later, h)
    requires (set p | p in paths) == Kept(later).Keys
    ensures SameHashes(h, files, later)
  {
    hide Blank, ParseLine, Unsafe, Excluded;
    forall p | p in Kept(files) ensures p in later && h(later[p]) == h(files[p]) {
      var l :| l in lines && ParseLine(l).Some? && ParseLine(l).value.path == p;
      assert LineHolds(l, later, h);
    }
    assert Kept(later).Keys == Kept(files).Keys;
  }

  lemma SameHolds(h: Hash, files: Files, paths: seq<string>, lines: seq<string>, later: Files)
    requires Directory(files) && Describes(lines, h, files, paths) && forall p :: p in paths <==> p in Kept(files)
    requires SameHashes(h, files, later)
    ensures forall l :: l in lines && !Blank(l) ==> LineHolds(l, later, h)
    ensures (set p | p in paths) == Kept(later).Keys
  {
    hide Blank, ParseLine, Unsafe, Excluded;
    forall l | l in lines ensures LineHolds(l, later, h) {
      var p := ParseLine(l).value.path;
      assert p in Kept(later).Keys && p in Kept(files);
    }
  }

  // ---------- Finalized directories ----------

  /** `later` still has the manifest and the sidecar that finalizing wrote. */
  ghost predicate Untouched(later: Files, finalized: Files) {
    forall p :: p == MANIFEST || p == MANIFEST_SIDECAR ==>
      p in later && p in finalized && later[p] == finalized[p]
  }

  /** With manifest and sidecar untouched, a directory passes exactly when its covered paths
      and contents are the finalized ones, if the hash tells their contents apart. */
  lemma PassesIffUnchanged(h: Hash, files: Files, paths: seq<string>, later: Files)
    requires Digest(h) && Directory(files)
    requires forall p :: p in paths <==> p in Kept(files)
    requires forall p :: p in paths ==> OneLine(p)
    requires Untouched(later, Closed(files, h, paths))
    ensures Passes(later, h) <==> SameHashes(h, files, later)
    ensures NoCollision(h, files, later) ==> (Passes(later, h) <==> Kept(later) == Kept(files))
  {
    hide Lines, ManifestText, Excluded, OneLine, SidecarVerifies, SidecarText, Verifies, Digest;
    var text := ManifestText(h, files, paths);
    assert later[MANIFEST] == text && later[MANIFEST_SIDECAR] == SidecarText(h, MANIFEST, text);
    ManifestNames();
    SidecarIff(h, MANIFEST, text, text);
    VerifiesIffSameHashes(h, files, paths, later);
    if SameHashes(h, files, later) && NoCollision(h, files, later) {
      forall p | p in Kept(files) ensures p in Kept(later) && Kept(later)[p] == Kept(files)[p] {
        assert p in Kept(later).Keys;
      }
      assert Kept(later) == Kept(files);
    }
  }

  lemma {:induction false} NoSlash(name: string)
    requires '/' !in name
    ensures BaseName(name) == name
  {
    if name != [] {
      NoSlash(name[..|name| - 1]);
    }
  }

  lemma ManifestNames()
    ensures OneWord(MANIFEST)
    ensures Excluded(MANIFEST) && Excluded(MANIFEST_SIDECAR)
  {
    hide BaseName, EndsWith, IsSpace, OneWord;
    ManifestWord(MANIFEST);
    ManifestWord(MANIFEST_SIDECAR);
    NoSlash(MANIFEST);
    NoSlash(MANIFEST_SIDECAR);
  }

  lemma ManifestWord(name: string)
    requires name == MANIFEST || name == MANIFEST_SIDECAR
    ensures OneWord(name) && '/' !in name
  {
    forall i | 0 <= i < |name| ensures 'a' <= name[i] <= 'z' || '0' <= name[i] <= '9' || name[i] == '.' {
    }
  }

  /** A finalized directory passes exactly when no covered name contains a line break. */
  lemma FinalizedPassesIffOneLine(h: Hash, files: Files, paths: seq<string>)
    requires Digest(h) && Directory(files)
    requires forall p :: p in paths <==> p in Kept(files)
    ensures Passes(Closed(files, h, paths), h) <==> forall p :: p in paths ==> OneLine(p)
  {
    hide Lines, ManifestText, Excluded, SidecarVerifies, SidecarText, OneLine, Verifies, Digest;
    var later := Closed(files, h, paths);
    ManifestNames();
    assert Kept(later) == Kept(files);
    if forall p :: p in paths ==> OneLine(p) {
      PassesIffUnchanged(h, files, paths, later);
    } else {
      var bad :| bad in paths && !OneLine(bad);
      NeverListed(later, ManifestText(h, files, paths), h, bad);
    }
  }

  /** No manifest verifies a directory with a covered name that has a line break. */
  lemma NeverListed(files: Files, manifest: string, h: Hash, bad: string)
    requires bad in Kept(files) && !OneLine(bad)
    ensures !Verifies(files, manifest, h)
  {
    hide Lines, Excluded;
    var lines := Lines(manifest);
    LinesAreOneLine(manifest);
    forall l | l in lines && ParseLine(l).Some? ensures ParseLine(l).value.path != bad {
      assert forall c :: c in ParseLine(l).value.path ==> c in l;
    }
    assert bad !in ListedPaths(lines);
  }

  const BROKEN_NAME := "a\nb"

  lemma BrokenNameIsOrdinary()
    ensures !Excluded(BROKEN_NAME) && !Unsafe(BROKEN_NAME) && !OneLine(BROKEN_NAME)
  {
    var name := BROKEN_NAME;
    assert name[..2] == "a\n" && name[..2][..1] == "a" && "a"[..0] == "";
    assert BaseName("a") == "a";
    assert BaseName("a\n") == "a\n";
    assert BaseName(name) == name;
    assert name[1..] == "\nb" && name[1..][1..] == "b" && "b"[1..] == "";
    assert ['b'] + "" == "b" && ['\n'] + "b" == "\nb" && ['a'] + "\nb" == name;
    assert Parts("b") == ["b"];
    assert Parts("\nb") == ["\nb"];
    assert Parts(name) == [name];
    assert name[1] == '\n' && name[1] in name;
  }

  /** A concrete directory for which finalizing succeeds and verifying then fails. */
  lemma LineBreakInNameFails(h: Hash, content: string)
    requires Digest(h)
    ensures var files := map[BROKEN_NAME := content];
            Directory(files) && BROKEN_NAME in Kept(files) && !Passes(Closed(files, h, [BROKEN_NAME]), h)
  {
    hide Lines, Excluded, Unsafe, OneLine, Digest, Passes, Closed;
    var files := map[BROKEN_NAME := content];
    BrokenNameIsOrdinary();
    FinalizedPassesIffOneLine(h, files, [BROKEN_NAME]);
    assert BROKEN_NAME in [BROKEN_NAME];
  }

  // ---------- The sidecar ----------

  function SidecarText(h: Hash, name: string, content: string): string {
    h(content) + "  " + name + "\n"
  }

  predicate SidecarVerifies(h: Hash, name: string, content: string, sidecar: string) {
    var fields := Fields(sidecar);
    && |fields| == 2 && |fields[0]| == 64 && (forall c :: c in fields[0] ==> HexDigit(c))
    && fields[1] == name
    && h(content) == Lower(fields[0])
  }

  /** A sidecar accepts exactly the contents with the hash of the one it was written for, so
      that content alone unless the two collide, and only under a name without white space. */
  lemma SidecarIff(h: Hash, name: string, content: string, later: string)
    requires Digest(h)
    ensures SidecarVerifies(h, name, later, SidecarText(h, name, content)) <==> OneWord(name) && h(later) == h(content)
    ensures (h(later) == h(content) ==> later == content) ==>
              (SidecarVerifies(h, name, later, SidecarText(h, name, content)) <==> OneWord(name) && later == content)
  {
    var text := SidecarText(h, name, content);
    FieldsAreWords(text);
    if OneWord(name) {
      assert forall c :: HexDigit(c) ==> !IsSpace(c);
      assert OneWord(h(content));
      assert text == h(content) + ([' '] + ([' '] + (name + "\n")));
      FieldsWord(h(content), [' '] + ([' '] + (name + "\n")));
      FieldsSpace(' ', [' '] + (name + "\n"));
      FieldsSpace(' ', name + "\n");
      FieldsWord(name, "\n");
      FieldsSpace('\n', "");
      assert "\n" == ['\n'] + "";
      assert Fields(text) == [h(content), name];
      LowerDigest(h, content);
    }
  }
}
