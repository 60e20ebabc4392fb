/** What the lines of an ignore file say, and which paths the common kinds of patterns match. */
module PatternRules {
  import opened Ignore
  import opened Results
  import Text

  // ---------- reading ----------

  /** A line that is blank, or a comment, gives no pattern. */
  lemma NoPattern(line: string)
    ensures Text.Blank(line) || "#" <= Text.Trim(line) ==> ReadLine(line) == None
  {
    Text.TrimEmpty(line);
  }

  /** A pattern's own text: not empty, no white space around it, no trailing slash. */
  predicate PatternText(text: string) {
    text != "" && Text.Trimmed(text) && text[|text| - 1] != '/'
  }

  /** A text with white space around it gives a pattern; one slash behind it is taken off. */
  lemma PatternIs(front: string, text: string, back: string)
    requires Text.Blank(front) && Text.Blank(back) && PatternText(text) && text[0] != '#' && text[0] != '!'
    ensures ReadLine(front + text + back) == Some(Pattern(text, false, false))
    ensures ReadLine(front + (text + "/") + back) == Some(Pattern(text, false, true))
  {
    var slashed := text + "/";
    assert slashed[0] == text[0] && slashed[|slashed| - 1] == '/';
    Text.TrimIs(front, text, back);
    Text.TrimIs(front, slashed, back);
    ReadsPlain(front + text + back, text);
    ReadsPlain(front + slashed + back, slashed);
    StrippedIs(text, false);
  }

  /** A `!` in front negates it. */
  lemma NegationIs(front: string, text: string, back: string)
    requires Text.Blank(front) && Text.Blank(back) && PatternText(text)
    ensures ReadLine(front + ("!" + text) + back) == Some(Pattern(text, true, false))
    ensures ReadLine(front + ("!" + text + "/") + back) == Some(Pattern(text, true, true))
  {
    var negated, slashed := "!" + text, "!" + text + "/";
    assert negated[1..] == text && slashed[1..] == text + "/";
    assert negated[|negated| - 1] == text[|text| - 1] && slashed[|slashed| - 1] == '/';
    Text.TrimIs(front, negated, back);
    Text.TrimIs(front, slashed, back);
    ReadsNegated(front + negated + back, negated);
    ReadsNegated(front + slashed + back, slashed);
    StrippedIs(text, true);
  }

  lemma ReadsPlain(line: string, shown: string)
    requires Text.Trim(line) == shown && shown != "" && shown[0] != '#' && shown[0] != '!'
    ensures ReadLine(line) == Some(Stripped(shown, false))
  {
  }

  lemma ReadsNegated(line: string, shown: string)
    requires Text.Trim(line) == shown && shown != "" && shown[0] == '!'
    ensures ReadLine(line) == Some(Stripped(shown[1..], true))
  {
  }

  lemma StrippedIs(text: string, negation: bool)
    requires text != "" && text[|text| - 1] != '/'
    ensures Stripped(text, negation) == Pattern(text, negation, false)
    ensures Stripped(text + "/", negation) == Pattern(text, negation, true)
  {
    NoSlashBehind(text);
    OneSlashBehind(text);
  }

  lemma NoSlashBehind(text: string)
    requires text != "" && text[|text| - 1] != '/'
    ensures !HasSuffix(text, "/") && TrimSuffix(text, "/") == text
  {
    if HasSuffix(text, "/") {
      EndsInSlash(text);
    }
  }

  lemma OneSlashBehind(text: string)
    ensures HasSuffix(text + "/", "/") && TrimSuffix(text + "/", "/") == text
  {
  }

  /** The lines' patterns come in the order of the lines. */
  lemma {:induction false} ReadLinesInOrder(line: string, rest: seq<string>)
    ensures ReadLines([line] + rest) ==
      (if ReadLine(line).Some? then [ReadLine(line).value] else []) + ReadLines(rest)
    decreases rest
  {
    var all := [line] + rest;
    if rest == [] {
      assert all[..|all| - 1] == [] && all[|all| - 1] == line;
    } else {
      var init, last := rest[..|rest| - 1], rest[|rest| - 1];
      assert all[..|all| - 1] == [line] + init && all[|all| - 1] == last;
      ReadLinesInOrder(line, init);
    }
  }

  // ---------- matching ----------

  predicate NoDoubleStar(s: string) {
    forall i :: 0 <= i < |s| - 1 ==> !(s[i] == '*' && s[i + 1] == '*')
  }

  /** A pattern with a slash inside and no star matches the path it spells and everything below it. */
  lemma InnerSlashMatches(glob: Glob, pattern: string, path: seq<string>, isDir: bool)
    requires IsPath(path) && '/' in pattern && '*' !in pattern && pattern[|pattern| - 1] != '/'
    ensures Match(glob, pattern, PathText(path), isDir) <==> Under(PathText(path), pattern)
  {
    PathParts(path);
    NoSlashBehind(pattern);
    assert DoubleStar(pattern).None?;
    assert Base(PathText(path)) == Last(path) && '/' !in Last(path);
  }

  /** A pattern with stars, but no two in a row, matches when filepath.Match accepts the whole path or one of its
      components - or when the path lies, star and all, under the pattern's text, or that is its last component. */
  lemma StarMatches(glob: Glob, pattern: string, path: seq<string>, isDir: bool)
    requires IsPath(path) && '*' in pattern && NoDoubleStar(pattern) && pattern[|pattern| - 1] != '/'
    ensures Match(glob, pattern, PathText(path), isDir) <==>
      || glob(pattern, PathText(path))
      || (exists part :: part in path && glob(pattern, part))
      || Under(PathText(path), pattern) || Last(path) == pattern
  {
    PathParts(path);
    NoSlashBehind(pattern);
    assert DoubleStar(pattern).None?;
    assert Last(path) in path && Base(PathText(path)) == Last(path);
  }

  lemma LeadingStarsOf(rest: string)
    requires NoDoubleStar(rest) && rest != "" && rest[0] != '*'
    ensures DoubleStar("**/" + rest) == Some(0) && ("**/" + rest)[2..] == "/" + rest
    ensures DoubleStar("/" + rest).None?
    ensures TrimSuffix(("**/" + rest)[..0], "/") == "" && TrimPrefix("/" + rest, "/") == rest
  {
    DoubleStarFirst("**/" + rest);
    NoneBehindSlash(rest);
    assert ("/" + rest)[1..] == rest;
  }

  lemma DoubleStarFirst(s: string)
    requires |s| >= 2 && s[0] == '*' && s[1] == '*'
    ensures DoubleStar(s) == Some(0)
  {
  }

  lemma NoneBehindSlash(rest: string)
    requires NoDoubleStar(rest)
    ensures DoubleStar("/" + rest).None?
  {
    var s := "/" + rest;
    assert forall i :: 1 <= i < |s| - 1 ==> s[i] == rest[i - 1] && s[i + 1] == rest[i];
  }

  /** Two stars, a slash, and a pattern with stars: filepath.Match accepts the path from some component on. */
  lemma StarAnyDepthMatches(glob: Glob, rest: string, path: seq<string>, isDir: bool)
    requires IsPath(path) && rest != "" && rest[0] != '*' && '*' in rest && NoDoubleStar(rest)
    ensures Match(glob, "**/" + rest, PathText(path), isDir) <==>
      exists i :: 0 <= i < |path| && glob(rest, PathText(path[i..]))
  {
    PathParts(path);
    LeadingStarsOf(rest);
    StarSuffixMatches(glob, "**/" + rest, rest, PathText(path), isDir);
    LastPart(path);
    FromSomeComponent(glob, rest, path);
    assert path[0..] == path;
  }

  lemma FromSomeComponent(glob: Glob, rest: string, path: seq<string>)
    ensures FromSome(glob, rest, path) <==> exists i :: 0 <= i < |path| && glob(rest, PathText(path[i..]))
  {
    if i :| 0 <= i < |path| && glob(rest, Text.Join(path[i..], '/')) {
      assert glob(rest, PathText(path[i..]));
    }
  }

  lemma StarSuffixMatches(glob: Glob, pattern: string, rest: string, text: string, isDir: bool)
    requires DoubleStar(pattern) == Some(0) && DoubleStar(pattern[2..]).None?
    requires TrimSuffix(pattern[..0], "/") == "" && TrimPrefix(pattern[2..], "/") == rest && '*' in rest
    ensures Match(glob, pattern, text, isDir) <==>
      glob(rest, text) || glob(rest, Base(text)) || FromSome(glob, rest, Text.Split(text, '/'))
  {
  }

  lemma LastPart(path: seq<string>)
    requires |path| >= 1
    ensures PathText(path[|path| - 1..]) == Last(path)
  {
    assert path[|path| - 1..] == [Last(path)];
  }

  /** More than one `**` in a pattern matches nothing. */
  lemma TwoDoubleStarsMatchNothing(glob: Glob, pattern: string, path: string, isDir: bool)
    requires DoubleStar(pattern).Some? && DoubleStar(pattern[DoubleStar(pattern).value + 2..]).Some?
    ensures !Match(glob, pattern, path, isDir)
  {
  }

  lemma MiddleStars(dir: string, name: string)
    requires '*' !in dir && '*' !in name
    ensures var p := dir + "/**/" + name;
      && DoubleStar(p) == Some(|dir| + 1) && p[..|dir| + 1] == dir + "/" && p[|dir| + 3..] == "/" + name
      && DoubleStar("/" + name).None?
  {
    var p := dir + "/**/" + name;
    MiddleParts(dir, name);
    DoubleStarAt(p, |dir| + 1);
    NoneBehindSlash(name);
  }

  lemma MiddleParts(dir: string, name: string)
    requires '*' !in dir
    ensures var p := dir + "/**/" + name;
      && p[..|dir| + 1] == dir + "/" && p[|dir| + 3..] == "/" + name
      && p[|dir| + 1] == '*' && p[|dir| + 2] == '*' && forall i :: 0 <= i <= |dir| ==> p[i] != '*'
  {
  }

  /** `dir/` and two stars and a name match the paths below dir that have the name as a component behind it. */
  lemma MiddleStarsMatch(glob: Glob, dir: string, name: string, path: string, isDir: bool)
    requires dir != "" && '*' !in dir && name != "" && '/' !in name && '*' !in name
    ensures Match(glob, dir + "/**/" + name, path, isDir) <==>
      dir + "/" <= path && name in Text.Split(path[|dir| + 1..], '/')
  {
    MiddleStars(dir, name);
    OneSlashBehind(dir);
    LeadingStarsParts(name);
    BelowMatches(glob, dir + "/**/" + name, dir, name, path, isDir);
  }

  lemma BelowMatches(glob: Glob, pattern: string, dir: string, name: string, path: string, isDir: bool)
    requires DoubleStar(pattern) == Some(|dir| + 1) && |pattern| >= |dir| + 3
    requires DoubleStar(pattern[|dir| + 3..]).None? && TrimSuffix(pattern[..|dir| + 1], "/") == dir
    requires TrimPrefix(pattern[|dir| + 3..], "/") == name && TrimSuffix(name, "/") == name && !HasSuffix(name, "/")
    requires dir != "" && name != "" && '/' !in name && '*' !in name
    ensures Match(glob, pattern, path, isDir) <==>
      dir + "/" <= path && name in Text.Split(path[|dir| + 1..], '/')
  {
    assert dir + "/" <= path ==> dir <= path;
    assert Text.Split("", '/') == [""];
    if dir + "/" <= path {
      var remaining := path[|dir| + 1..];
      if remaining == name {
        Text.SplitNoSep(name, '/');
      }
      if HasSuffix(remaining, "/" + name) {
        EndsWithName(remaining, name);
      }
    }
  }

  /** The same with stars behind: filepath.Match accepts the rest of the path, from some component on. For dir itself
      the rest is empty, and its base name a dot. */
  lemma StarsBelowMatch(glob: Glob, pattern: string, dir: string, rest: string, path: string, isDir: bool)
    requires DoubleStar(pattern) == Some(|dir| + 1) && |pattern| >= |dir| + 3
    requires DoubleStar(pattern[|dir| + 3..]).None? && TrimSuffix(pattern[..|dir| + 1], "/") == dir
    requires TrimPrefix(pattern[|dir| + 3..], "/") == rest && dir != "" && '*' in rest
    ensures path == dir ==> (Match(glob, pattern, path, isDir) <==> glob(rest, "") || glob(rest, "."))
    ensures path != dir && !(dir + "/" <= path) ==> !Match(glob, pattern, path, isDir)
    ensures dir + "/" <= path ==>
      var below := path[|dir| + 1..];
      (Match(glob, pattern, path, isDir) <==>
        glob(rest, below) || glob(rest, Base(below)) || FromSome(glob, rest, Text.Split(below, '/')))
  {
    assert dir + "/" <= path ==> dir <= path;
    OnlyEmpty(glob, rest);
  }

  lemma OnlyEmpty(glob: Glob, rest: string)
    ensures FromSome(glob, rest, Text.Split("", '/')) <==> glob(rest, "")
  {
    assert Text.Split("", '/') == [""];
    FromSomeComponent(glob, rest, [""]);
    assert [""][0..] == [""] && PathText([""]) == "";
  }
}
