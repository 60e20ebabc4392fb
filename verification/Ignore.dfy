/** The patterns of .quantflowignore: reading them, matching a path, and the verdict on a path.
    filepath.Match is the parameter `glob`. */
module Ignore {
  import Text
  import opened Results

  type Glob = (string, string) -> bool

  datatype Pattern = Pattern(text: string, negation: bool, directory: bool)

  const PROTECTED: seq<string> := ["vendor", "node_modules", "frontend/dist"]

  const DEFAULTS: seq<string> :=
    ["*.log", "*.tmp", "*.temp", "test/", "tests/", "__tests__/", ".DS_Store", "Thumbs.db", "*.pyc", "*.pyo",
     "__pycache__/", ".git/"]

  // ---------- strings ----------

  predicate HasSuffix(s: string, end: string) {
    |end| <= |s| && s[|s| - |end|..] == end
  }

  function TrimSuffix(s: string, end: string): string {
    if HasSuffix(s, end) then s[..|s| - |end|] else s
  }

  function TrimPrefix(s: string, start: string): string {
    if start <= s then s[|start|..] else s
  }

  function Last(parts: seq<string>): string
    requires |parts| >= 1
  {
    parts[|parts| - 1]
  }

  /** filepath.Base of a clean path. */
  function Base(path: string): string {
    if path == "" then "." else Last(Text.Split(path, '/'))
  }

  /** The position of the first `**`. */
  function DoubleStar(s: string): (at: Option<nat>)
    ensures at.Some? ==> at.value + 2 <= |s| && s[at.value] == '*' && s[at.value + 1] == '*'
    ensures at.None? ==> forall i :: 0 <= i < |s| - 1 ==> !(s[i] == '*' && s[i + 1] == '*')
    ensures at.Some? ==> forall i :: 0 <= i < at.value ==> !(s[i] == '*' && s[i + 1] == '*')
  {
    if |s| < 2 then None
    else if s[0] == '*' && s[1] == '*' then Some(0)
    else match DoubleStar(s[1..])
      case None => None
      case Some(i) => Some(i + 1)
  }

  // ---------- reading ----------

  /** A pattern without its trailing slash. */
  function Stripped(text: string, negation: bool): Pattern {
    Pattern(TrimSuffix(text, "/"), negation, HasSuffix(text, "/"))
  }

  /** The pattern of a line; None for an empty line and for a comment. */
  function ReadLine(line: string): Option<Pattern> {
    var l := Text.Trim(line);
    if l == "" || "#" <= l then None
    else if "!" <= l then Some(Stripped(l[1..], true))
    else Some(Stripped(l, false))
  }

  function ReadLines(lines: seq<string>): seq<Pattern> {
    if lines == [] then []
    else
      var last := ReadLine(lines[|lines| - 1]);
      ReadLines(lines[..|lines| - 1]) + (if last.Some? then [last.value] else [])
  }

  // ---------- matching ----------

  predicate Match(glob: Glob, pattern: string, path: string, isDir: bool) {
    if DoubleStar(pattern).Some? then MatchDoubleStar(glob, pattern, path, isDir)
    else
      var slashed := HasSuffix(pattern, "/");
      var p := TrimSuffix(pattern, "/");
      var parts := Text.Split(path, '/');
      || p == path || p == Base(path)
      || (slashed && p in parts)
      || ('*' in p &&
          (glob(p, path) || glob(p, Base(path)) || (!slashed && exists part :: part in parts && glob(p, part))))
      || p + "/" <= path
  }

  /** The pattern accepts the rest of the path from some component on. */
  predicate FromSome(glob: Glob, pattern: string, parts: seq<string>) {
    exists i :: 0 <= i < |parts| && glob(pattern, Text.Join(parts[i..], '/'))
  }

  predicate MatchDoubleStar(glob: Glob, pattern: string, path: string, isDir: bool)
    requires DoubleStar(pattern).Some?
  {
    var at := DoubleStar(pattern).value;
    var prefix, suffix := TrimSuffix(pattern[..at], "/"), TrimPrefix(pattern[at + 2..], "/");
    if DoubleStar(pattern[at + 2..]).Some? then false
    else if !(prefix <= path) then false
    else if suffix == "" then true
    else if prefix != "" && path != prefix && !(prefix + "/" <= path) then false
    else
      var remaining := if prefix == "" then path else if path == prefix then "" else path[|prefix| + 1..];
      var parts := Text.Split(remaining, '/');
      if '*' in suffix then
        || glob(suffix, remaining)
        || FromSome(glob, suffix, parts)
        || glob(suffix, Base(remaining))
      else if HasSuffix(suffix, "/") && !isDir then false
      else
        var s := TrimSuffix(suffix, "/");
        remaining == s || HasSuffix(remaining, "/" + s) || s in parts
  }

  // ---------- the verdict ----------

  predicate Under(path: string, dir: string) {
    path == dir || dir + "/" <= path
  }

  predicate Protected(path: string) {
    exists dir :: dir in PROTECTED && Under(path, dir)
  }

  /** The last pattern that matches decides. */
  predicate Verdict(glob: Glob, patterns: seq<Pattern>, path: string, isDir: bool) {
    patterns != [] &&
    var last := patterns[|patterns| - 1];
    if Match(glob, last.text, path, isDir) then !last.negation
    else Verdict(glob, patterns[..|patterns| - 1], path, isDir)
  }

  predicate Ignored(glob: Glob, patterns: seq<Pattern>, path: string, isDir: bool) {
    !Protected(path) && Verdict(glob, patterns, path, isDir)
  }

  /** The i-th pattern ignores the path, and no negation after it brings the path back. */
  ghost predicate Decides(glob: Glob, patterns: seq<Pattern>, path: string, isDir: bool, i: nat) {
    && i < |patterns| && Match(glob, patterns[i].text, path, isDir) && !patterns[i].negation
    && forall j :: i < j < |patterns| && patterns[j].negation ==> !Match(glob, patterns[j].text, path, isDir)
  }

  ghost predicate Decided(glob: Glob, patterns: seq<Pattern>, path: string, isDir: bool) {
    exists i :: Decides(glob, patterns, path, isDir, i)
  }

  lemma DecidesInLonger(glob: Glob, patterns: seq<Pattern>, last: Pattern, path: string, isDir: bool, i: nat)
    requires i < |patterns|
    requires last.negation ==> !Match(glob, last.text, path, isDir)
    ensures Decides(glob, patterns + [last], path, isDir, i) <==> Decides(glob, patterns, path, isDir, i)
  {
    var longer := patterns + [last];
    assert forall j :: 0 <= j < |patterns| ==> longer[j] == patterns[j];
    if Decides(glob, longer, path, isDir, i) {
      forall j | i < j < |patterns| && patterns[j].negation ensures !Match(glob, patterns[j].text, path, isDir) {
        assert longer[j] == patterns[j];
      }
    }
  }

  /** A last pattern that does not match decides nothing. */
  lemma DecidedWithout(glob: Glob, patterns: seq<Pattern>, last: Pattern, path: string, isDir: bool)
    requires !Match(glob, last.text, path, isDir)
    ensures Decided(glob, patterns + [last], path, isDir) <==> Decided(glob, patterns, path, isDir)
  {
    if i: nat :| Decides(glob, patterns, path, isDir, i) {
      DecidesInLonger(glob, patterns, last, path, isDir, i);
    }
    if i: nat :| Decides(glob, patterns + [last], path, isDir, i) {
      LastIsSilent(glob, patterns, last, path, isDir, i);
      DecidesInLonger(glob, patterns, last, path, isDir, i);
    }
  }

  lemma LastIsSilent(glob: Glob, patterns: seq<Pattern>, last: Pattern, path: string, isDir: bool, i: nat)
    requires !Match(glob, last.text, path, isDir) && Decides(glob, patterns + [last], path, isDir, i)
    ensures i < |patterns|
  {
    assert (patterns + [last])[|patterns|] == last;
  }

  lemma NegationDecides(glob: Glob, patterns: seq<Pattern>, last: Pattern, path: string, isDir: bool, i: nat)
    requires Match(glob, last.text, path, isDir) && last.negation
    ensures !Decides(glob, patterns + [last], path, isDir, i)
  {
    assert (patterns + [last])[|patterns|] == last;
  }

  /** What one more pattern changes. */
  lemma DecidedSnoc(glob: Glob, patterns: seq<Pattern>, last: Pattern, path: string, isDir: bool)
    ensures Decided(glob, patterns + [last], path, isDir) <==>
      if Match(glob, last.text, path, isDir) then !last.negation else Decided(glob, patterns, path, isDir)
  {
    if !Match(glob, last.text, path, isDir) {
      DecidedWithout(glob, patterns, last, path, isDir);
    } else if last.negation {
      forall i: nat ensures !Decides(glob, patterns + [last], path, isDir, i) {
        NegationDecides(glob, patterns, last, path, isDir, i);
      }
    } else {
      assert (patterns + [last])[|patterns|] == last;
      assert Decides(glob, patterns + [last], path, isDir, |patterns|);
    }
  }

  lemma VerdictSnoc(glob: Glob, patterns: seq<Pattern>, last: Pattern, path: string, isDir: bool)
    ensures Verdict(glob, patterns + [last], path, isDir) <==>
      if Match(glob, last.text, path, isDir) then !last.negation else Verdict(glob, patterns, path, isDir)
  {
    var longer := patterns + [last];
    assert longer[..|longer| - 1] == patterns && longer[|longer| - 1] == last;
  }

  /** A path is ignored by a list exactly when some pattern ignores it and no later negation matches it. */
  lemma {:induction false} VerdictByPosition(glob: Glob, patterns: seq<Pattern>, path: string, isDir: bool)
    ensures Verdict(glob, patterns, path, isDir) <==> Decided(glob, patterns, path, isDir)
  {
    if patterns == [] {
    } else {
      var init, last := patterns[..|patterns| - 1], patterns[|patterns| - 1];
      assert patterns == init + [last];
      VerdictByPosition(glob, init, path, isDir);
      VerdictSnoc(glob, init, last, path, isDir);
      DecidedSnoc(glob, init, last, path, isDir);
    }
  }

  class IgnoreParser {
    var patterns: seq<Pattern>

    constructor ()
      ensures patterns == []
    {
      patterns := [];
    }

    method AddDefaultPatterns()
      modifies this
      ensures |patterns| == |old(patterns)| + |DEFAULTS|
      ensures patterns[..|old(patterns)|] == old(patterns)
      ensures forall k :: 0 <= k < |DEFAULTS| ==> patterns[|old(patterns)| + k] == Stripped(DEFAULTS[k], false)
    {
      var k := 0;
      while k < |DEFAULTS|
        invariant 0 <= k <= |DEFAULTS|
        invariant |patterns| == |old(patterns)| + k
        invariant patterns[..|old(patterns)|] == old(patterns)
        invariant forall j :: 0 <= j < k ==> patterns[|old(patterns)| + j] == Stripped(DEFAULTS[j], false)
      {
        var pattern := Pattern(DEFAULTS[k], false, false);
        if HasSuffix(DEFAULTS[k], "/") {
          pattern := pattern.(directory := true, text := TrimSuffix(DEFAULTS[k], "/"));
        }
        patterns := patterns + [pattern];
        k := k + 1;
      }
    }

    method LoadIgnoreFile(text: string)
      modifies this
      ensures patterns == old(patterns) + ReadLines(Text.Split(text, '\n'))
    {
      var lines := Text.Split(text, '\n');
      var k := 0;
      while k < |lines|
        invariant 0 <= k <= |lines|
        invariant patterns == old(patterns) + ReadLines(lines[..k])
      {
        var line := Text.Trim(lines[k]);
        assert lines[..k + 1][..k] == lines[..k];
        k := k + 1;
        if line == "" || "#" <= line {
          continue;
        }
        var pattern := Pattern(line, false, false);
        if "!" <= line {
          pattern := pattern.(negation := true, text := line[1..]);
        }
        if HasSuffix(pattern.text, "/") {
          pattern := pattern.(directory := true, text := TrimSuffix(pattern.text, "/"));
        }
        patterns := patterns + [pattern];
      }
      assert lines[..k] == lines;
    }

    method IsIgnored(glob: Glob, relPath: string, isDir: bool) returns (ignored: bool)
      ensures ignored == Ignored(glob, patterns, relPath, isDir)
    {
      var protected := IsProtected(relPath);
      if protected {
        return false;
      }
      ignored := LastMatch(glob, relPath, isDir);
    }

    /** The loop over the protected directories. */
    method IsProtected(relPath: string) returns (protected: bool)
      ensures protected == Protected(relPath)
    {
      var d := 0;
      while d < |PROTECTED|
        invariant 0 <= d <= |PROTECTED|
        invariant forall e :: 0 <= e < d ==> !Under(relPath, PROTECTED[e])
      {
        if relPath == PROTECTED[d] || PROTECTED[d] + "/" <= relPath {
          assert Under(relPath, PROTECTED[d]) && PROTECTED[d] in PROTECTED;
          return true;
        }
        d := d + 1;
      }
      protected := false;
    }

    /** The loop over the patterns. */
    method LastMatch(glob: Glob, relPath: string, isDir: bool) returns (ignored: bool)
      ensures ignored == Verdict(glob, patterns, relPath, isDir)
    {
      ignored := false;
      var k := 0;
      while k < |patterns|
        invariant 0 <= k <= |patterns|
        invariant ignored == Verdict(glob, patterns[..k], relPath, isDir)
      {
        assert patterns[..k + 1] == patterns[..k] + [patterns[k]];
        VerdictSnoc(glob, patterns[..k], patterns[k], relPath, isDir);
        var matched := Match(glob, patterns[k].text, relPath, isDir);
        if matched {
          ignored := !patterns[k].negation;
        }
        k := k + 1;
      }
      assert patterns[..k] == patterns;
    }
  }

  // ---------- what common patterns match ----------

  /** A path, by its components. */
  ghost predicate IsPath(path: seq<string>) {
    |path| >= 1 && forall i :: 0 <= i < |path| ==> path[i] != "" && '/' !in path[i]
  }

  function PathText(path: seq<string>): string
    requires |path| >= 1
  {
    Text.Join(path, '/')
  }

  lemma PathParts(path: seq<string>)
    requires IsPath(path)
    ensures Text.Split(PathText(path), '/') == path && PathText(path) != ""
  {
    Text.SplitJoin(path, '/');
  }

  /** Text under a directory begins with the directory as its first component. */
  lemma UnderIsFirst(path: seq<string>, name: string)
    requires IsPath(path) && '/' !in name
    ensures Under(PathText(path), name) <==> path[0] == name
  {
    var text := PathText(path);
    PathParts(path);
    if text == name {
      Text.SplitNoSep(name, '/');
    } else if name + "/" <= text {
      var rest := text[|name| + 1..];
      assert text == name + ['/'] + rest;
      Text.SplitAtSep(name, rest, '/');
      Text.SplitNoSep(name, '/');
    }
    if path[0] == name && |path| > 1 {
      assert text == (name + ['/']) + Text.Join(path[1..], '/');
    }
  }

  lemma EndsInSlash(s: string)
    requires HasSuffix(s, "/")
    ensures s != "" && s[|s| - 1] == '/' && '/' in s
  {
    assert s[|s| - 1..][0] == s[|s| - 1];
  }

  /** A name (no slash, no star) matches the paths whose first or last component it is. */
  lemma NameMatches(glob: Glob, name: string, path: seq<string>, isDir: bool)
    requires IsPath(path) && '/' !in name && '*' !in name
    ensures Match(glob, name, PathText(path), isDir) <==> path[0] == name || Last(path) == name
  {
    var text := PathText(path);
    PathParts(path);
    UnderIsFirst(path, name);
    assert DoubleStar(name).None?;
    if HasSuffix(name, "/") {
      EndsInSlash(name);
    }
  }

  lemma EndsWithName(text: string, name: string)
    requires '/' !in name && HasSuffix(text, "/" + name)
    ensures name in Text.Split(text, '/')
  {
    var head := text[..|text| - |name| - 1];
    assert text == head + ['/'] + name;
    Text.SplitAtSep(head, name, '/');
    Text.SplitNoSep(name, '/');
  }

  lemma LeadingStars(name: string)
    requires '*' !in name
    ensures DoubleStar("**/" + name) == Some(0) && DoubleStar(("**/" + name)[2..]).None?
    ensures ("**/" + name)[2..] == "/" + name
  {
  }

  lemma LeadingStarsParts(name: string)
    requires name != "" && '/' !in name
    ensures TrimSuffix(("**/" + name)[..0], "/") == "" && TrimPrefix("/" + name, "/") == name
    ensures TrimSuffix(name, "/") == name && !HasSuffix(name, "/")
  {
    assert ("/" + name)[1..] == name;
    if HasSuffix(name, "/") {
      EndsInSlash(name);
    }
  }

  /** `**` and a name match the paths that have the name as a component. */
  lemma AnyDepthMatches(glob: Glob, name: string, path: seq<string>, isDir: bool)
    requires IsPath(path) && name != "" && '/' !in name && '*' !in name
    ensures Match(glob, "**/" + name, PathText(path), isDir) <==> name in path
  {
    var text := PathText(path);
    PathParts(path);
    LeadingStarsMatch(glob, name, text, isDir);
    if text == name {
      Text.SplitNoSep(name, '/');
    }
    if HasSuffix(text, "/" + name) {
      EndsWithName(text, name);
    }
  }

  lemma LeadingStarsMatch(glob: Glob, name: string, text: string, isDir: bool)
    requires name != "" && '/' !in name && '*' !in name
    ensures Match(glob, "**/" + name, text, isDir) <==>
      text == name || HasSuffix(text, "/" + name) || name in Text.Split(text, '/')
  {
    LeadingStars(name);
    LeadingStarsParts(name);
    SuffixMatches(glob, "**/" + name, name, text, isDir);
  }

  /** A pattern with one `**`, nothing before it and a plain name behind it. */
  lemma SuffixMatches(glob: Glob, pattern: string, name: string, text: string, isDir: bool)
    requires DoubleStar(pattern) == Some(0) && DoubleStar(pattern[2..]).None?
    requires TrimSuffix(pattern[..0], "/") == "" && TrimPrefix(pattern[2..], "/") == name
    requires name != "" && '*' !in name && TrimSuffix(name, "/") == name && !HasSuffix(name, "/")
    ensures Match(glob, pattern, text, isDir) <==>
      text == name || HasSuffix(text, "/" + name) || name in Text.Split(text, '/')
  {
  }

  lemma TrailingStars(dir: string)
    requires '*' !in dir
    ensures DoubleStar(dir + "/**") == Some(|dir| + 1) && (dir + "/**")[|dir| + 1..][2..] == ""
    ensures (dir + "/**")[..|dir| + 1] == dir + "/" && (dir + "/**")[|dir| + 3..] == ""
  {
    TrailingParts(dir);
    NoStarBefore(dir);
    DoubleStarAt(dir + "/**", |dir| + 1);
  }

  lemma TrailingParts(dir: string)
    ensures (dir + "/**")[|dir| + 1..][2..] == "" && (dir + "/**")[|dir| + 3..] == ""
    ensures (dir + "/**")[..|dir| + 1] == dir + "/"
  {
  }

  lemma NoStarBefore(dir: string)
    requires '*' !in dir
    ensures var p := dir + "/**";
      p[|dir| + 1] == '*' && p[|dir| + 2] == '*' && forall i :: 0 <= i <= |dir| ==> p[i] != '*'
  {
  }

  lemma DoubleStarAt(s: string, i: nat)
    requires i + 1 < |s| && s[i] == '*' && s[i + 1] == '*' && forall j :: 0 <= j < i ==> s[j] != '*'
    ensures DoubleStar(s) == Some(i)
  {
  }

  /** A directory and `**` match by the directory's text alone: also the siblings whose names begin with it. */
  lemma EverythingBelowMatches(glob: Glob, dir: string, path: string, isDir: bool)
    requires '*' !in dir
    ensures Match(glob, dir + "/**", path, isDir) <==> dir <= path
    ensures (Match(glob, dir + "/**", path, isDir) <==> Under(path, dir)) <==>
      (dir <= path ==> |path| == |dir| || path[|dir|] == '/')
  {
    TrailingStars(dir);
    assert TrimSuffix(dir + "/", "/") == dir;
    if dir <= path && |path| > |dir| {
      assert (dir + "/" <= path) <==> path[|dir|] == '/';
    }
  }

  lemma SiblingIsMatched(glob: Glob)
    ensures Match(glob, "build/**", "builder", false) && !Under("builder", "build")
  {
    var dir: string := "build";
    assert dir + "/**" == "build/**";
    assert "builder"[..5] == dir;
    EverythingBelowMatches(glob, dir, "builder", false);
  }
}
