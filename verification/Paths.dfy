/** Lexical path normalization, and containment as a test on the normalized strings. */
module Paths {
  import opened Text

  /** Lower-casing character by character; it neither makes nor removes a separator or a dot. */
  ghost predicate KeepsSeparators(f: char -> string) {
    && f('/') == "/" && f('.') == "." && f(':') == ":"
    && (forall c: char :: c != '/' ==> f(c) != "" && '/' !in f(c))
    && (forall c: char :: c != '.' ==> '.' !in f(c))
    && (forall c: char :: c < '\U{0080}' ==> |f(c)| == 1 && f(c)[0] < '\U{0080}')
  }

  type Lowering = f: char -> string | KeepsSeparators(f) ghost witness (c => [c])

  function Lowered(s: string, f: Lowering): string { if s == "" then "" else f(s[0]) + Lowered(s[1..], f) }

  lemma {:induction false} LoweredConcat(a: string, b: string, f: Lowering)
    ensures Lowered(a + b, f) == Lowered(a, f) + Lowered(b, f)
  {
    if a == "" {
      assert a + b == b;
    } else {
      assert (a + b)[1..] == a[1..] + b;
      LoweredConcat(a[1..], b, f);
    }
  }

  predicate NoSlash(s: string) { '/' !in s }

  lemma {:induction false} LoweredSegment(s: string, f: Lowering)
    requires NoSlash(s)
    ensures NoSlash(Lowered(s, f)) && (s != "" ==> Lowered(s, f) != "")
  {
    if s != "" {
      LoweredSegment(s[1..], f);
      assert s[0] != '/' && KeepsSeparators(f);
    }
  }

  // Normalization

  function Backslashed(s: string): string { seq(|s|, i requires 0 <= i < |s| => if s[i] == '\\' then '/' else s[i]) }

  predicate StartsWith(s: string, prefix: string) { prefix <= s }

  /** Trimmed, with one kind of separator and without a verbatim prefix. */
  function Cleaned(raw: string, windows: bool): string {
    if !windows then Trim(raw)
    else
      var value := Backslashed(Trim(raw));
      var lower := AsciiLowercase(value);
      if StartsWith(lower, "//?/unc/") then "//" + value[8..]
      else if StartsWith(lower, "//?/") then value[4..]
      else value
  }

  /** The prefix of a path, the rest, and how many leading segments `..` cannot remove. */
  datatype Shape = Shape(prefix: string, body: string, protected: nat)

  predicate DriveRooted(value: string) { |value| >= 3 && value[0] < '\U{0080}' && value[1] == ':' && value[2] == '/' }

  function ShapeOf(value: string, windows: bool): Shape {
    if windows && StartsWith(value, "//") then Shape("//", value[2..], 2)
    else if windows && DriveRooted(value) then Shape(value[..3], value[3..], 0)
    else if StartsWith(value, "/") then Shape("/", value[1..], 0)
    else Shape("", value, 0)
  }

  /** `split('/')` */
  function Split(s: string): (parts: seq<string>)
    ensures |parts| > 0 && forall i :: 0 <= i < |parts| ==> NoSlash(parts[i])
  {
    if s == "" then [""]
    else
      var parts := Split(s[1..]);
      if s[0] == '/' then [""] + parts else [[s[0]] + parts[0]] + parts[1..]
  }

  /** One segment, on top of those resolved so far. */
  function ResolveOne(segments: seq<string>, segment: string, relative: bool, protected: nat): seq<string> {
    if segment == "" || segment == "." then segments
    else if segment == ".." then
      if |segments| > protected && segments[|segments| - 1] != ".." then segments[..|segments| - 1]
      else if relative then segments + [segment]
      else segments
    else segments + [segment]
  }

  function Resolve(parts: seq<string>, relative: bool, protected: nat): seq<string> {
    if parts == [] then []
    else ResolveOne(Resolve(parts[..|parts| - 1], relative, protected), parts[|parts| - 1], relative, protected)
  }

  function Join(segments: seq<string>): string {
    if segments == [] then "" else if |segments| == 1 then segments[0] else segments[0] + "/" + Join(segments[1..])
  }

  function SegmentsOf(shape: Shape): seq<string> { Resolve(Split(shape.body), shape.prefix == "", shape.protected) }

  function Assembled(prefix: string, segments: seq<string>): string {
    if segments == [] then prefix
    else if prefix == "" || prefix[|prefix| - 1] == '/' then prefix + Join(segments)
    else prefix + "/" + Join(segments)
  }

  function Normalized(raw: string, windows: bool, f: Lowering): string {
    var shape := ShapeOf(Cleaned(raw, windows), windows);
    var text := Assembled(shape.prefix, SegmentsOf(shape));
    var text1 := if text == "" && Trim(raw) != "" then "." else text;
    if windows then Lowered(text1, f) else text1
  }

  /** `normalize_path_text` */
  method NormalizePathText(raw: string, windows: bool, f: Lowering) returns (r: string)
    ensures r == Normalized(raw, windows, f)
  {
    hide Split, Join, Lowered, ResolveOne;
    var shape := ShapeOf(Cleaned(raw, windows), windows);
    var parts := Split(shape.body);
    var segments: seq<string> := [];
    var i := 0;
    while i < |parts|
      invariant 0 <= i <= |parts| && segments == Resolve(parts[..i], shape.prefix == "", shape.protected)
    {
      assert parts[..i + 1][..i] == parts[..i];
      segments := PushSegment(segments, parts[i], shape.prefix == "", shape.protected);
      i := i + 1;
    }
    assert parts[..i] == parts;
    var text := Assembled(shape.prefix, segments);
    if text == "" && Trim(raw) != "" { text := "."; }
    r := if windows then Lowered(text, f) else text;
  }

  /** The body of the loop: skip, pop or push. */
  method PushSegment(segments: seq<string>, segment: string, relative: bool, protected: nat) returns (r: seq<string>)
    ensures r == ResolveOne(segments, segment, relative, protected)
  {
    r := segments;
    if segment == "" || segment == "." { return; }
    if segment == ".." {
      if |r| > protected && r[|r| - 1] != ".." {
        r := r[..|r| - 1];
      } else if relative {
        r := r + [segment];
      }
      return;
    }
    r := r + [segment];
  }

  /** `path_is_within_text` */
  predicate PathIsWithin(candidate: string, root: string, windows: bool, f: Lowering) {
    var c, r := Normalized(candidate, windows, f), Normalized(root, windows, f);
    if r == "" then false
    else if r == "." then
      c == "." || !(c == "" || c == ".." || StartsWith(c, "../") || StartsWith(c, "/") || DriveRooted(c))
    else if c == r then true
    else if r[|r| - 1] == '/' then StartsWith(c, r)
    else StartsWith(c, r + "/")
  }

  // Rooted paths

  /** Rooted the POSIX way, or on a drive of a Windows system. */
  predicate Rooted(raw: string, windows: bool) {
    var value := Cleaned(raw, windows);
    if windows then DriveRooted(value) && value[0] != '/' else StartsWith(value, "/")
  }

  /** What stands before the first separator: nothing, or the drive. */
  function Head(raw: string, windows: bool, f: Lowering): string
    requires Rooted(raw, windows)
  {
    if windows then Lowered(Cleaned(raw, windows)[..2], f) else ""
  }

  /** The lexically resolved segments as they are compared. */
  function Resolved(raw: string, windows: bool, f: Lowering): seq<string> {
    var segments := SegmentsOf(ShapeOf(Cleaned(raw, windows), windows));
    if windows then LoweredAll(segments, f) else segments
  }

  function LoweredAll(segments: seq<string>, f: Lowering): (r: seq<string>)
    ensures |r| == |segments|
  {
    if segments == [] then [] else [Lowered(segments[0], f)] + LoweredAll(segments[1..], f)
  }

  predicate IsSegment(s: string) { s != "" && NoSlash(s) }

  predicate AreSegments(segments: seq<string>) { forall i :: 0 <= i < |segments| ==> IsSegment(segments[i]) }

  predicate NoParents(segments: seq<string>) {
    forall i :: 0 <= i < |segments| ==> segments[i] != ".." && segments[i] != "."
  }

  /** Resolving a rooted path leaves proper segments only: none empty, none `.`, none `..`. */
  lemma {:induction false} ResolvedIsProper(parts: seq<string>, protected: nat)
    requires forall i :: 0 <= i < |parts| ==> NoSlash(parts[i])
    ensures AreSegments(Resolve(parts, false, protected)) && NoParents(Resolve(parts, false, protected))
  {
    hide NoSlash;
    if parts != [] {
      ResolvedIsProper(parts[..|parts| - 1], protected);
    }
  }

  lemma {:induction false} LoweredAreSegments(segments: seq<string>, f: Lowering)
    requires AreSegments(segments)
    ensures AreSegments(LoweredAll(segments, f))
  {
    hide NoSlash, Lowered;
    if segments != [] {
      assert IsSegment(segments[0]);
      LoweredSegment(segments[0], f);
      LoweredAreSegments(segments[1..], f);
    }
  }

  lemma {:induction false} LoweredJoin(segments: seq<string>, f: Lowering)
    ensures Lowered(Join(segments), f) == Join(LoweredAll(segments, f))
  {
    if |segments| > 1 {
      LoweredJoin(segments[1..], f);
      LoweredConcat(segments[0] + "/", Join(segments[1..]), f);
      LoweredConcat(segments[0], "/", f);
      SlashStays(f);
      hide Lowered;
      assert LoweredAll(segments, f)[1..] == LoweredAll(segments[1..], f);
    }
  }

  lemma SlashStays(f: Lowering)
    ensures Lowered("/", f) == "/"
  {
    assert KeepsSeparators(f);
    assert Lowered("/", f) == f('/') + Lowered("", f);
  }

  /** A rooted path normalizes to its head, a separator and its segments. */
  lemma NormalizedRooted(raw: string, windows: bool, f: Lowering)
    requires Rooted(raw, windows)
    ensures Normalized(raw, windows, f) == Head(raw, windows, f) + "/" + Join(Resolved(raw, windows, f))
    ensures NoSlash(Head(raw, windows, f)) && AreSegments(Resolved(raw, windows, f))
  {
    var value := Cleaned(raw, windows);
    var shape := ShapeOf(value, windows);
    var segments := SegmentsOf(shape);
    hide Cleaned, Split, Resolve, Lowered;
    RootedShape(value, windows);
    ResolvedIsProper(Split(shape.body), shape.protected);
    assert Assembled(shape.prefix, segments) == shape.prefix + Join(segments) by {
      if segments == [] { assert shape.prefix + "" == shape.prefix; }
    }
    if windows {
      assert shape.prefix == value[..2] + "/";
      LoweredConcat(shape.prefix, Join(segments), f);
      LoweredConcat(value[..2], "/", f);
      SlashStays(f);
      LoweredJoin(segments, f);
      LoweredAreSegments(segments, f);
      LoweredSegment(value[..2], f);
    }
  }

  lemma RootedShape(value: string, windows: bool)
    requires if windows then DriveRooted(value) && value[0] != '/' else StartsWith(value, "/")
    ensures ShapeOf(value, windows) ==
            if windows then Shape(value[..2] + "/", value[3..], 0) else Shape("/", value[1..], 0)
    ensures windows ==> NoSlash(value[..2])
  {
    if windows { assert value[..3] == value[..2] + "/"; }
  }

  // Strings and segments

  /** Every segment followed by a separator. */
  function Terminated(segments: seq<string>): string {
    if segments == [] then "" else segments[0] + "/" + Terminated(segments[1..])
  }

  lemma {:induction false} JoinTerminated(segments: seq<string>)
    requires segments != []
    ensures Join(segments) + "/" == Terminated(segments)
  {
    if |segments| > 1 {
      JoinTerminated(segments[1..]);
      assert segments[0] + "/" + (Join(segments[1..]) + "/") == segments[0] + "/" + Join(segments[1..]) + "/";
    } else {
      assert segments[1..] == [];
      assert segments[0] + "/" + "" == segments[0] + "/";
    }
  }

  lemma FirstSlash(x: string, u: string, y: string, v: string)
    requires NoSlash(x) && NoSlash(y) && x + "/" + u <= y + "/" + v
    ensures x == y && u <= v
  {
    var s, t := x + "/" + u, y + "/" + v;
    assert s[|x|] == '/' && t[|y|] == '/';
    assert t[..|s|] == s;
    assert x == s[..|x|] && y == t[..|y|];
    assert u == s[|x| + 1..] && v == t[|y| + 1..];
  }

  predicate AllNoSlash(segments: seq<string>) { forall i :: 0 <= i < |segments| ==> NoSlash(segments[i]) }

  /** Terminated segments form a prefix code. */
  lemma {:induction false} TerminatedPrefix(a: seq<string>, b: seq<string>)
    requires AllNoSlash(a) && AllNoSlash(b)
    ensures Terminated(a) <= Terminated(b) <==> a <= b
  {
    hide NoSlash;
    if a != [] && b != [] {
      var u, v := Terminated(a[1..]), Terminated(b[1..]);
      TerminatedPrefix(a[1..], b[1..]);
      if Terminated(a) <= Terminated(b) {
        FirstSlash(a[0], u, b[0], v);
        assert a == [a[0]] + a[1..] && b == [b[0]] + b[1..];
      }
      if a <= b {
        assert a[1..] <= b[1..];
        PrefixUnder(a[0] + "/", u, v);
      }
    }
  }

  lemma PrefixUnder(p: string, u: string, v: string)
    requires u <= v
    ensures p + u <= p + v
  {
    assert p + v == p + u + v[|u|..];
  }

  /** The string test on joined segments: equal, or continued after a separator. */
  lemma JoinedPrefix(a: seq<string>, b: seq<string>)
    requires a != [] && b != [] && AllNoSlash(a) && AllNoSlash(b)
    ensures Join(a) + "/" <= Join(b) <==> a <= b && a != b
    ensures Join(a) == Join(b) <==> a == b
  {
    hide Join, Terminated, NoSlash;
    JoinTerminated(a);
    JoinTerminated(b);
    TerminatedPrefix(a, b);
    TerminatedPrefix(b, a);
    var t := Terminated(b);
    if Join(a) + "/" <= Join(b) {
      assert Terminated(a) <= Join(b) <= Join(b) + "/" == t;
    }
    if a <= b && a != b {
      assert Terminated(a) <= t && Terminated(a) != t;
      assert Terminated(a) <= t[..|t| - 1] == Join(b);
    }
    if Join(a) == Join(b) { assert Terminated(a) == Terminated(b); }
  }

  /** The segments of a normalized rooted path, the head first; a bare root ends in an empty one. */
  function Full(head: string, segments: seq<string>): seq<string> {
    [head] + if segments == [] then [""] else segments
  }

  lemma JoinFull(head: string, segments: seq<string>)
    ensures Join(Full(head, segments)) == head + "/" + Join(segments)
  {
    if segments == [] {
      assert Full(head, segments)[1..] == [""];
    } else {
      assert Full(head, segments)[1..] == segments;
    }
  }

  lemma FullNoSlash(head: string, segments: seq<string>)
    requires NoSlash(head) && AreSegments(segments)
    ensures AllNoSlash(Full(head, segments)) && AllNoSlash([head])
  {
    assert NoSlash("");
    hide NoSlash;
  }

  /** The last character of a joined list of segments is no separator. */
  lemma {:induction false} JoinEnd(segments: seq<string>)
    requires segments != [] && AreSegments(segments)
    ensures Join(segments) != "" && Join(segments)[|Join(segments)| - 1] != '/'
  {
    if |segments| > 1 {
      JoinEnd(segments[1..]);
    } else {
      var s := segments[0];
      assert IsSegment(s);
      assert s[|s| - 1] in s;
    }
  }

  /** The test on strings of the given heads and segments. */
  predicate WithinText(c: string, r: string)
    requires r != ""
  {
    c == r || if r[|r| - 1] == '/' then StartsWith(c, r) else StartsWith(c, r + "/")
  }

  lemma TextIsSegments(hc: string, sc: seq<string>, hr: string, sr: seq<string>)
    requires NoSlash(hc) && NoSlash(hr) && AreSegments(sc) && AreSegments(sr)
    ensures WithinText(hc + "/" + Join(sc), hr + "/" + Join(sr)) <==> hc == hr && sr <= sc
  {
    var c, r := hc + "/" + Join(sc), hr + "/" + Join(sr);
    JoinFull(hc, sc);
    JoinFull(hr, sr);
    FullNoSlash(hc, sc);
    FullNoSlash(hr, sr);
    JoinedPrefix(Full(hr, sr), Full(hc, sc));
    JoinedPrefix([hr], Full(hc, sc));
    if sr == [] {
      assert r == hr + "/" && r[|r| - 1] == '/';
      assert Join([hr]) == hr;
      hide Join, AreSegments, AllNoSlash;
      assert StartsWith(c, r) <==> [hr] <= Full(hc, sc);
    } else {
      JoinEnd(sr);
      assert r[|r| - 1] == Join(sr)[|Join(sr)| - 1];
      hide Join, AllNoSlash;
      FullPrefix(hc, sc, hr, sr);
    }
  }

  lemma FullPrefix(hc: string, sc: seq<string>, hr: string, sr: seq<string>)
    requires sr != [] && AreSegments(sr)
    ensures Full(hr, sr) <= Full(hc, sc) <==> hc == hr && sr <= sc
  {
    var a, b := Full(hr, sr), Full(hc, sc);
    assert a[0] == hr && b[0] == hc && a[1..] == sr;
    assert IsSegment(sr[0]);
    if a <= b {
      assert a[1] == b[1];
      assert b[1..] == sc;
      assert sr == b[1..][..|sr|];
    }
    if hc == hr && sr <= sc {
      assert b == [hc] + sc;
    }
  }

  /** Containment of rooted paths is a prefix of resolved segments under the same head. */
  lemma WithinIffSegmentPrefix(candidate: string, root: string, windows: bool, f: Lowering)
    requires Rooted(candidate, windows) && Rooted(root, windows)
    ensures PathIsWithin(candidate, root, windows, f) <==>
            Head(candidate, windows, f) == Head(root, windows, f)
            && Resolved(root, windows, f) <= Resolved(candidate, windows, f)
  {
    hide Rooted, Head, Resolved, Normalized, Join, AreSegments;
    NormalizedRooted(candidate, windows, f);
    NormalizedRooted(root, windows, f);
    var r := Normalized(root, windows, f);
    assert '/' in r;
    TextIsSegments(Head(candidate, windows, f), Resolved(candidate, windows, f), Head(root, windows, f), Resolved(root, windows, f));
  }

  /** A rooted path has no parent segments left. */
  lemma NoParentsLeft(raw: string, windows: bool)
    requires Rooted(raw, windows)
    ensures NoParents(SegmentsOf(ShapeOf(Cleaned(raw, windows), windows)))
  {
    hide Split, Resolve, Cleaned;
    var value := Cleaned(raw, windows);
    RootedShape(value, windows);
    ResolvedIsProper(Split(ShapeOf(value, windows).body), 0);
  }

  /** The first segments of a network path, its server and share, survive any parent segments that follow. */
  lemma {:induction false} ShareIsProtected(parts: seq<string>, more: seq<string>, relative: bool, protected: nat)
    requires |Resolve(parts, relative, protected)| >= protected
    ensures |Resolve(parts + more, relative, protected)| >= protected
    ensures Resolve(parts + more, relative, protected)[..protected] == Resolve(parts, relative, protected)[..protected]
  {
    if more == [] {
      assert parts + more == parts;
    } else {
      var n := |more| - 1;
      ShareIsProtected(parts, more[..n], relative, protected);
      assert (parts + more)[..|parts + more| - 1] == parts + more[..n];
    }
  }

  // What cleaning and splitting do

  /** Splitting at the separators is undone by joining; with `Split`'s own promise there is only one such split. */
  lemma {:induction false} SplitJoins(s: string)
    ensures Join(Split(s)) == s
  {
    if s != "" {
      SplitJoins(s[1..]);
      var parts := Split(s[1..]);
      assert s == [s[0]] + s[1..];
      if s[0] == '/' {
        assert Split(s)[1..] == parts;
      } else if |parts| > 1 {
        assert Split(s)[1..] == parts[1..];
        assert [s[0]] + (parts[0] + "/" + Join(parts[1..])) == [s[0]] + parts[0] + "/" + Join(parts[1..]);
      }
    }
  }

  /** One kind of separator is left on Windows. */
  lemma NoBackslashLeft(raw: string)
    ensures '\\' !in Cleaned(raw, true)
  {
    hide Trim;
  }

  /** A verbatim prefix changes nothing: in front of a drive, or spelled UNC in front of a server. */
  lemma VerbatimDrive(path: string)
    requires Trim(path) == path && Trim("\\\\?\\" + path) == "\\\\?\\" + path && DriveRooted(Backslashed(path))
    ensures Cleaned("\\\\?\\" + path, true) == Cleaned(path, true) == Backslashed(path)
  {
    hide Trim;
    var raw := "\\\\?\\" + path;
    assert Backslashed(raw) == "//?/" + Backslashed(path);
    assert AsciiLowercase(Backslashed(raw))[5] == ':';
    assert AsciiLowercase(Backslashed(raw))[..4] == "//?/";
    assert AsciiLowercase(Backslashed(path))[1] == ':';
  }

  lemma VerbatimNetwork(rest: string)
    requires Trim("\\\\" + rest) == "\\\\" + rest && Trim("\\\\?\\UNC\\" + rest) == "\\\\?\\UNC\\" + rest
    requires rest != "" && rest[0] != '?'
    ensures Cleaned("\\\\?\\UNC\\" + rest, true) == Cleaned("\\\\" + rest, true) == "//" + Backslashed(rest)
  {
    hide Trim;
    var raw, plain := "\\\\?\\UNC\\" + rest, "\\\\" + rest;
    assert Backslashed(raw) == "//?/UNC/" + Backslashed(rest);
    assert AsciiLowercase(Backslashed(raw))[..8] == "//?/unc/";
    assert Backslashed(plain) == "//" + Backslashed(rest);
    assert AsciiLowercase(Backslashed(plain))[2] != '?';
  }

  /** Server and share of a network path survive whatever follows. */
  lemma NetworkRootStays(value: string)
    requires StartsWith(value, "//") && |Split(value[2..])| >= 2
    requires forall i :: 0 <= i < 2 ==> Split(value[2..])[i] !in {"", ".", ".."}
    ensures Split(value[2..])[..2] <= SegmentsOf(ShapeOf(value, true))
  {
    var parts := Split(value[2..]);
    hide Split, Resolve;
    NamesStay(parts[..2], false, 2);
    ShareIsProtected(parts[..2], parts[2..], false, 2);
    assert parts[..2] + parts[2..] == parts;
  }

  // What resolving does to the segments

  /** What follows matters only through what has been resolved so far. */
  lemma {:induction false} ResolveAfter(a: seq<string>, b: seq<string>, more: seq<string>, relative: bool, protected: nat)
    requires Resolve(a, relative, protected) == Resolve(b, relative, protected)
    ensures Resolve(a + more, relative, protected) == Resolve(b + more, relative, protected)
  {
    hide ResolveOne;
    if more == [] {
      assert a + more == a && b + more == b;
    } else {
      var n := |more| - 1;
      ResolveAfter(a, b, more[..n], relative, protected);
      assert (a + more)[..|a + more| - 1] == a + more[..n] && (b + more)[..|b + more| - 1] == b + more[..n];
    }
  }

  /** Segments that are neither empty nor dots stay as they are. */
  lemma {:induction false} NamesStay(names: seq<string>, relative: bool, protected: nat)
    requires AreSegments(names) && NoParents(names)
    ensures Resolve(names, relative, protected) == names
  {
    if names != [] { NamesStay(names[..|names| - 1], relative, protected); }
  }

  /** An empty segment or a single dot means nothing, and a name followed by `..` neither. */
  lemma ParentCancels(before: seq<string>, skipped: string, name: string, after: seq<string>, relative: bool, protected: nat)
    requires skipped in {"", "."} && name !in {"", ".", ".."} && |Resolve(before, relative, protected)| >= protected
    ensures Resolve(before + [skipped] + after, relative, protected) == Resolve(before + after, relative, protected)
    ensures Resolve(before + [name, ".."] + after, relative, protected) == Resolve(before + after, relative, protected)
  {
    assert (before + [skipped])[..|before|] == before;
    assert (before + [name, ".."])[..|before| + 1] == before + [name];
    assert (before + [name])[..|before|] == before;
    ResolveAfter(before + [skipped], before, after, relative, protected);
    ResolveAfter(before + [name, ".."], before, after, relative, protected);
  }

  // Relative paths

  /** How far below its start a relative path ends up; above it if negative. */
  function Level(parts: seq<string>): int {
    if parts == [] then 0
    else var last := parts[|parts| - 1];
         Level(parts[..|parts| - 1]) + if last == "" || last == "." then 0 else if last == ".." then -1 else 1
  }

  /** The highest point a relative path passes, as a level. */
  function Lowest(parts: seq<string>): int {
    if parts == [] then 0
    else var before := Lowest(parts[..|parts| - 1]); if Level(parts) < before then Level(parts) else before
  }

  /** A relative path resolves to as many `..` as it climbs above its start, followed by names down to its level. */
  lemma {:induction false} ClimbsFirst(parts: seq<string>)
    ensures Lowest(parts) <= Level(parts) && Lowest(parts) <= 0
    ensures var segments := Resolve(parts, true, 0);
            && |segments| == Level(parts) - 2 * Lowest(parts)
            && (forall i :: 0 <= i < -Lowest(parts) ==> segments[i] == "..")
            && (forall i :: -Lowest(parts) <= i < |segments| ==> segments[i] !in {"", ".", ".."})
  {
    if parts != [] { ClimbsFirst(parts[..|parts| - 1]); }
  }

  lemma {:induction false} LowestOfMore(parts: seq<string>, more: seq<string>)
    ensures Lowest(parts + more) <= Lowest(parts)
  {
    if more == [] {
      assert parts + more == parts;
    } else {
      LowestOfMore(parts, more[..|more| - 1]);
      assert (parts + more)[..|parts + more| - 1] == parts + more[..|more| - 1];
    }
  }

  lemma {:induction false} LowestOfParents(ups: seq<string>)
    requires forall i :: 0 <= i < |ups| ==> ups[i] == ".."
    ensures Level(ups) == Lowest(ups) == -|ups|
  {
    if ups != [] { LowestOfParents(ups[..|ups| - 1]); }
  }

  /** The `..` a relative path starts with survive whatever follows. */
  lemma LeadingParentsSurvive(ups: seq<string>, more: seq<string>)
    requires forall i :: 0 <= i < |ups| ==> ups[i] == ".."
    ensures ups <= Resolve(ups + more, true, 0)
  {
    ClimbsFirst(ups + more);
    LowestOfMore(ups, more);
    LowestOfParents(ups);
  }

  /** Lowering neither makes nor unmakes `..`. */
  lemma LoweredParent(s: string, f: Lowering)
    ensures Lowered(s, f) == ".." <==> s == ".."
  {
    assert KeepsSeparators(f);
    if s != "" && s[0] == '.' {
      var t := s[1..];
      assert Lowered(s, f) == "." + Lowered(t, f);
      if t != "" && t[0] == '.' {
        assert Lowered(t, f) == "." + Lowered(t[1..], f);
        NonemptyStays(t[1..], f);
        assert s == ".." + t[1..];
      } else if t != "" {
        assert Lowered(t, f)[0] == f(t[0])[0] && f(t[0])[0] in f(t[0]);
      }
    } else if s != "" {
      assert Lowered(s, f)[0] == f(s[0])[0] && f(s[0])[0] in f(s[0]);
    }
  }

  lemma NonemptyStays(s: string, f: Lowering)
    ensures s != "" ==> Lowered(s, f) != ""
  {
    assert KeepsSeparators(f);
  }

  /** Joined segments start with a parent segment exactly if the first one is. */
  lemma StartsWithParent(segments: seq<string>)
    requires segments != [] && AreSegments(segments)
    ensures var c := Join(segments);
            && c != "" && c[0] != '/' && (c == ".." || StartsWith(c, "../") <==> segments[0] == "..")
  {
    assert AllNoSlash(segments) && AllNoSlash([".."]) by {
      forall i | 0 <= i < |segments| ensures NoSlash(segments[i]) { assert IsSegment(segments[i]); }
    }
    JoinedPrefix([".."], segments);
    assert Join([".."]) == ".." && ".." + "/" == "../";
    assert IsSegment(segments[0]);
    assert segments[0][0] in segments[0];
    if |segments| > 1 { assert Join(segments)[0] == segments[0][0]; }
  }

  /** The text of a path with a prefix starts with it. */
  lemma RootedIsNotBelow(raw: string, windows: bool, f: Lowering)
    requires ShapeOf(Cleaned(raw, windows), windows).prefix != ""
    ensures var c := Normalized(raw, windows, f); c != "." && c != "" && (StartsWith(c, "/") || DriveRooted(c))
  {
    var value := Cleaned(raw, windows);
    var shape := ShapeOf(value, windows);
    var text := Assembled(shape.prefix, SegmentsOf(shape));
    hide Cleaned, Split, Resolve, Join, Trim;
    assert KeepsSeparators(f);
    assert shape.prefix <= text;
    var rest := text[|shape.prefix|..];
    assert text == shape.prefix + rest;
    if windows {
      LoweredConcat(shape.prefix, rest, f);
      if shape.prefix[0] == '/' {
        assert Lowered(shape.prefix, f)[0] == f('/')[0];
      } else {
        LoweredDrive(shape.prefix, f);
      }
    }
  }

  lemma LoweredDrive(prefix: string, f: Lowering)
    requires |prefix| == 3 && DriveRooted(prefix)
    ensures |Lowered(prefix, f)| == 3 && DriveRooted(Lowered(prefix, f))
  {
    assert KeepsSeparators(f);
    assert prefix == [prefix[0]] + ":/";
    LoweredConcat([prefix[0]], ":/", f);
    assert Lowered([prefix[0]], f) == f(prefix[0]) + Lowered("", f);
    assert Lowered(":/", f) == f(':') + Lowered("/", f);
    assert Lowered("/", f) == f('/') + Lowered("", f);
  }

  /** A relative path normalizes to its joined segments, or to a dot. */
  lemma NormalizedRelative(raw: string, windows: bool, f: Lowering)
    requires ShapeOf(Cleaned(raw, windows), windows).prefix == "" && Trim(raw) != ""
    ensures Normalized(raw, windows, f) == if Resolved(raw, windows, f) == [] then "." else Join(Resolved(raw, windows, f))
    ensures AreSegments(Resolved(raw, windows, f))
    ensures var parts := Split(ShapeOf(Cleaned(raw, windows), windows).body);
            Resolved(raw, windows, f) != [] ==> (Resolved(raw, windows, f)[0] == ".." <==> Lowest(parts) < 0)
  {
    var shape := ShapeOf(Cleaned(raw, windows), windows);
    var parts := Split(shape.body);
    var segments := SegmentsOf(shape);
    hide Cleaned, Split, Trim, ShapeOf;
    assert shape.protected == 0 by { ShapeProtects(Cleaned(raw, windows), windows); }
    ClimbsFirst(parts);
    RelativeAreSegments(parts);
    hide Resolve, Level, Lowest;
    LoweredJoin(segments, f);
    LoweredAreSegments(segments, f);
    assert KeepsSeparators(f);
    assert Lowered(".", f) == "." by { assert Lowered(".", f) == f('.') + Lowered("", f); }
    hide Join, Lowered;
    assert "" + Join(segments) == Join(segments);
    if segments != [] {
      LoweredParent(segments[0], f);
      StartsWithParent(segments);
      StartsWithParent(LoweredAll(segments, f));
    }
  }

  lemma ShapeProtects(value: string, windows: bool)
    ensures ShapeOf(value, windows).prefix == "" ==> ShapeOf(value, windows).protected == 0
  {
  }

  lemma {:induction false} RelativeAreSegments(parts: seq<string>)
    requires AllNoSlash(parts)
    ensures AreSegments(Resolve(parts, true, 0))
  {
    hide NoSlash;
    if parts != [] { RelativeAreSegments(parts[..|parts| - 1]); }
  }

  /**
   Below the current directory, exactly: a path that says something, has no root of any kind, never
   climbs above its start, and does not read as one on a drive once it is normalized.
   */
  lemma WithinCurrentIff(candidate: string, root: string, windows: bool, f: Lowering)
    requires Normalized(root, windows, f) == "."
    ensures var shape := ShapeOf(Cleaned(candidate, windows), windows);
            PathIsWithin(candidate, root, windows, f) <==>
            && Trim(candidate) != "" && shape.prefix == "" && Lowest(Split(shape.body)) >= 0
            && !DriveRooted(Normalized(candidate, windows, f))
  {
    var shape := ShapeOf(Cleaned(candidate, windows), windows);
    if shape.prefix != "" {
      RootedIsNotBelow(candidate, windows, f);
    } else if Trim(candidate) == "" {
      NothingIsEmpty(candidate, windows, f);
    } else {
      NormalizedRelative(candidate, windows, f);
      ClimbsFirst(Split(shape.body));
      hide Cleaned, Split, Trim, Normalized, Lowest, Level, Join, Resolve, DriveRooted;
      var segments := Resolved(candidate, windows, f);
      if segments != [] {
        StartsWithParent(segments);
      } else {
        EmptyStaysInside(candidate, windows, f);
      }
    }
  }

  lemma EmptyStaysInside(raw: string, windows: bool, f: Lowering)
    requires ShapeOf(Cleaned(raw, windows), windows).prefix == "" && Resolved(raw, windows, f) == []
    ensures Lowest(Split(ShapeOf(Cleaned(raw, windows), windows).body)) >= 0 && !DriveRooted(".")
  {
    hide Cleaned, Split;
    ShapeProtects(Cleaned(raw, windows), windows);
    ClimbsFirst(Split(ShapeOf(Cleaned(raw, windows), windows).body));
  }

  lemma NothingIsEmpty(raw: string, windows: bool, f: Lowering)
    requires Trim(raw) == "" && ShapeOf(Cleaned(raw, windows), windows).prefix == ""
    ensures Normalized(raw, windows, f) == ""
  {
    assert Backslashed("") == "" && AsciiLowercase("") == "";
    assert Split("") == [""];
    assert Resolve([""], true, 0) == [] by { assert [""][..0] == []; }
  }

  lemma WithinReflexive(path: string, windows: bool, f: Lowering)
    requires Rooted(path, windows)
    ensures PathIsWithin(path, path, windows, f)
  {
    WithinIffSegmentPrefix(path, path, windows, f);
  }

  lemma WithinTransitive(a: string, b: string, c: string, windows: bool, f: Lowering)
    requires Rooted(a, windows) && Rooted(b, windows) && Rooted(c, windows)
    requires PathIsWithin(a, b, windows, f) && PathIsWithin(b, c, windows, f)
    ensures PathIsWithin(a, c, windows, f)
  {
    hide Rooted, Head, Resolved, PathIsWithin;
    WithinIffSegmentPrefix(a, b, windows, f);
    WithinIffSegmentPrefix(b, c, windows, f);
    WithinIffSegmentPrefix(a, c, windows, f);
  }
}
