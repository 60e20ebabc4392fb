/** Packing a bot's directory: a walk that prunes hidden and ignored directories. */
module ZipWalk {
  import Text
  import opened Ignore

  /** A directory's entries, in the order in which filepath.Walk visits them. */
  datatype Forest = Empty | Entry(node: Node, rest: Forest)
  datatype Node = File(name: string) | Dir(name: string, entries: Forest)

  type Path = seq<string>

  function ZipName(unixTime: nat): string {
    "bot_" + Text.Decimal(unixTime) + ".zip"
  }

  /** What the walk is given: the ignore patterns and the name of the archive itself. */
  datatype Settings = Settings(glob: Glob, patterns: seq<Pattern>, zipName: string)

  predicate Hidden(path: Path)
    requires |path| >= 1
  {
    "." <= Last(path)
  }

  predicate Own(s: Settings, path: Path)
    requires |path| >= 1
  {
    Last(path) == s.zipName
  }

  /** The path and everything below it stays out. */
  predicate Blocks(s: Settings, path: Path, isDir: bool)
    requires |path| >= 1
  {
    !Own(s, path) && (Hidden(path) || Ignored(s.glob, s.patterns, PathText(path), isDir))
  }

  // ---------- the specification: all files, filtered ----------

  /** Every file below a directory, in the order of the walk. */
  function Files(f: Forest, prefix: Path): seq<Path>
    decreases f
  {
    if f.Empty? then []
    else
      var path := prefix + [f.node.name];
      (if f.node.File? then [path] else Files(f.node.entries, path)) + Files(f.rest, prefix)
  }

  /** A file is packed when it is not the archive and neither it nor a directory above it is hidden or ignored.
      (A directory with the archive's name is not looked at.) */
  ghost predicate Chosen(s: Settings, path: Path) {
    |path| >= 1 && !Own(s, path) && forall k :: 1 <= k <= |path| ==> !Blocks(s, path[..k], k < |path|)
  }

  ghost function Filter(s: Settings, paths: seq<Path>): (kept: seq<Path>)
    ensures forall p :: p in kept <==> p in paths && Chosen(s, p)
  {
    if paths == [] then []
    else
      assert paths == [paths[0]] + paths[1..];
      (if Chosen(s, paths[0]) then [paths[0]] else []) + Filter(s, paths[1..])
  }

  lemma {:induction false} FilterConcat(s: Settings, a: seq<Path>, b: seq<Path>)
    ensures Filter(s, a + b) == Filter(s, a) + Filter(s, b)
  {
    if a == [] {
      assert a + b == b;
    } else {
      assert (a + b)[1..] == a[1..] + b;
      FilterConcat(s, a[1..], b);
    }
  }

  /** No directory on the way blocks. */
  ghost predicate Clear(s: Settings, prefix: Path) {
    forall k :: 1 <= k <= |prefix| ==> !Blocks(s, prefix[..k], true)
  }

  predicate Below(path: Path, dir: Path) {
    dir < path
  }

  lemma {:induction false} FilesAreBelow(f: Forest, prefix: Path)
    ensures forall p :: p in Files(f, prefix) ==> Below(p, prefix)
    decreases f
  {
    if f.Empty? {
    } else {
      FilesAreBelow(f.rest, prefix);
      if f.node.Dir? {
        FilesAreBelow(f.node.entries, prefix + [f.node.name]);
      }
    }
  }

  /** The whole tree under a blocked directory is filtered out. */
  lemma BlockedTree(s: Settings, f: Forest, dir: Path)
    requires |dir| >= 1 && Blocks(s, dir, true)
    ensures Filter(s, Files(f, dir)) == []
  {
    FilesAreBelow(f, dir);
    forall p | p in Files(f, dir) ensures !Chosen(s, p) {
      assert Below(p, dir) && p[..|dir|] == dir;
    }
    FilterNone(s, Files(f, dir));
  }

  lemma {:induction false} FilterNone(s: Settings, paths: seq<Path>)
    requires forall p :: p in paths ==> !Chosen(s, p)
    ensures Filter(s, paths) == []
  {
    if paths == [] {
    } else {
      assert paths[0] in paths;
      FilterNone(s, paths[1..]);
    }
  }

  lemma ClearBelow(s: Settings, prefix: Path, name: string)
    requires Clear(s, prefix)
    ensures Clear(s, prefix + [name]) <==> !Blocks(s, prefix + [name], true)
    ensures Chosen(s, prefix + [name]) <==> !Own(s, prefix + [name]) && !Blocks(s, prefix + [name], false)
  {
    var path := prefix + [name];
    assert path[..|path|] == path;
    forall k | 1 <= k <= |prefix|
      ensures !Blocks(s, path[..k], true)
    {
      assert path[..k] == prefix[..k];
    }
    BlocksAtEnd(s, path);
  }

  /** When nothing blocks on the way, the last component decides. */
  lemma BlocksAtEnd(s: Settings, path: Path)
    requires |path| >= 1 && path[..|path|] == path
    requires forall k :: 1 <= k < |path| ==> !Blocks(s, path[..k], true)
    ensures Clear(s, path) <==> !Blocks(s, path, true)
    ensures Chosen(s, path) <==> !Own(s, path) && !Blocks(s, path, false)
  {
    if !Blocks(s, path, true) {
      forall k | 1 <= k <= |path|
        ensures !Blocks(s, path[..k], true)
      {
        assert k == |path| ==> path[..k] == path;
      }
    }
    if !Blocks(s, path, false) {
      forall k | 1 <= k <= |path|
        ensures !Blocks(s, path[..k], k < |path|)
      {
        assert k == |path| ==> path[..k] == path;
      }
    }
  }

  /** One entry's share of the archive. */
  ghost function Share(s: Settings, node: Node, prefix: Path): seq<Path> {
    var path := prefix + [node.name];
    Filter(s, if node.File? then [path] else Files(node.entries, path))
  }

  lemma Shares(s: Settings, f: Forest, prefix: Path)
    requires f.Entry?
    ensures Texts(Filter(s, Files(f, prefix))) ==
      Texts(Share(s, f.node, prefix)) + Texts(Filter(s, Files(f.rest, prefix)))
  {
    var path := prefix + [f.node.name];
    FilterConcat(s, if f.node.File? then [path] else Files(f.node.entries, path), Files(f.rest, prefix));
    TextsConcat(Share(s, f.node, prefix), Filter(s, Files(f.rest, prefix)));
  }

  lemma NothingToPack(s: Settings, prefix: Path)
    ensures Texts(Filter(s, Files(Empty, prefix))) == []
  {
  }

  /** First the entry's share, then the rest. */
  lemma PackedInTwo(packed: seq<string>, s: Settings, f: Forest, prefix: Path)
    requires f.Entry?
    ensures packed + Texts(Share(s, f.node, prefix)) + Texts(Filter(s, Files(f.rest, prefix)))
         == packed + Texts(Filter(s, Files(f, prefix)))
  {
    Shares(s, f, prefix);
  }

  lemma ShareOfFile(s: Settings, name: string, prefix: Path)
    ensures Share(s, File(name), prefix) == if Chosen(s, prefix + [name]) then [prefix + [name]] else []
  {
    var one := [prefix + [name]];
    assert one[1..] == [] && Filter(s, one[1..]) == [];
  }

  ghost function Texts(paths: seq<Path>): seq<string> {
    seq(|paths|, i requires 0 <= i < |paths| => if paths[i] == [] then "" else PathText(paths[i]))
  }

  lemma TextsConcat(a: seq<Path>, b: seq<Path>)
    ensures Texts(a + b) == Texts(a) + Texts(b)
  {
  }

  // ---------- the walk ----------

  datatype Signal = Continue | SkipDir

  class Archive {
    const settings: Settings
    /** The names of the files written, in order. */
    var entries: seq<string>

    constructor (settings: Settings)
      ensures this.settings == settings && entries == []
    {
      this.settings := settings;
      entries := [];
    }

    /** The callback, on one path other than the root. */
    method Visit(path: Path, isDir: bool) returns (signal: Signal)
      requires |path| >= 1
      modifies this
      ensures signal.SkipDir? <==> isDir && Blocks(settings, path, true)
      ensures entries == old(entries) +
        if !isDir && !Own(settings, path) && !Blocks(settings, path, false) then [PathText(path)] else []
    {
      if Last(path) == settings.zipName {
        return Continue;
      }
      if "." <= Last(path) {
        return if isDir then SkipDir else Continue;
      }
      if Ignored(settings.glob, settings.patterns, PathText(path), isDir) {
        return if isDir then SkipDir else Continue;
      }
      if isDir {
        return Continue;
      }
      entries := entries + [PathText(path)];
      signal := Continue;
    }

    /** filepath.Walk on one entry of a directory. */
    method WalkEntry(node: Node, prefix: Path)
      requires Clear(settings, prefix)
      modifies this
      ensures entries == old(entries) + Texts(Share(settings, node, prefix))
      decreases node
    {
      var path := prefix + [node.name];
      ClearBelow(settings, prefix, node.name);
      var signal := Visit(path, node.Dir?);
      if node.File? {
        ShareOfFile(settings, node.name, prefix);
      } else if signal == Continue {
        Walk(node.entries, path);
      } else {
        BlockedTree(settings, node.entries, path);
      }
    }

    /** filepath.Walk over the entries of a directory: what it packs is the list of all files, filtered. */
    method Walk(f: Forest, prefix: Path)
      requires Clear(settings, prefix)
      modifies this
      ensures entries == old(entries) + Texts(Filter(settings, Files(f, prefix)))
      decreases f
    {
      if f.Empty? {
        NothingToPack(settings, prefix);
        return;
      }
      PackedInTwo(entries, settings, f, prefix);
      WalkEntry(f.node, prefix);
      Walk(f.rest, prefix);
    }
  }

  method CreateBotZip(settings: Settings, root: Forest) returns (names: seq<string>)
    ensures names == Texts(Filter(settings, Files(root, [])))
  {
    var archive := new Archive(settings);
    archive.Walk(root, []);
    names := archive.entries;
  }

  // ---------- which paths are packed ----------

  /** A file lies at the path of names below the directory. */
  ghost predicate FileAt(f: Forest, names: Path)
    decreases f
  {
    f.Entry? && names != [] &&
    ((names[0] == f.node.name && if f.node.File? then |names| == 1 else FileAt(f.node.entries, names[1..]))
     || FileAt(f.rest, names))
  }

  /** The list holds the paths at which a file lies, and no other. */
  lemma {:induction false} FilesExactly(f: Forest, prefix: Path, names: Path)
    ensures prefix + names in Files(f, prefix) <==> FileAt(f, names)
    decreases f
  {
    if f.Empty? {
    } else {
      FilesExactly(f.rest, prefix, names);
      FilesOfNode(f.node, prefix, names);
      if names != [] && f.node.Dir? && names[0] == f.node.name {
        assert prefix + names == prefix + [f.node.name] + names[1..];
        FilesExactly(f.node.entries, prefix + [f.node.name], names[1..]);
      }
    }
  }

  /** An entry's files are those whose first name is the entry's. */
  lemma FilesOfNode(node: Node, prefix: Path, names: Path)
    ensures node.File? ==> (prefix + names == prefix + [node.name] <==> |names| == 1 && names[0] == node.name)
    ensures node.Dir? && prefix + names in Files(node.entries, prefix + [node.name]) ==>
      names != [] && names[0] == node.name
  {
    if prefix + names == prefix + [node.name] {
      assert (prefix + names)[|prefix|..] == names && (prefix + [node.name])[|prefix|..] == [node.name];
    }
    if node.Dir? && prefix + names in Files(node.entries, prefix + [node.name]) {
      FilesAreBelow(node.entries, prefix + [node.name]);
      assert Below(prefix + names, prefix + [node.name]);
      assert (prefix + names)[|prefix|] == (prefix + [node.name])[|prefix|];
    }
  }

  // ---------- what is always packed, and what plain names keep out ----------

  predicate Visible(path: Path) {
    forall i :: 0 <= i < |path| ==> !("." <= path[i])
  }

  lemma PrefixIsPath(path: Path, k: nat)
    requires IsPath(path) && 1 <= k <= |path|
    ensures IsPath(path[..k])
  {
  }

  lemma ZipNameIsVisible(unixTime: nat)
    ensures !("." <= ZipName(unixTime))
  {
    assert ZipName(unixTime)[0] == 'b';
  }

  /** Some directory above the path, or the path itself, bears a name that is not the archive's and is ignored. */
  ghost predicate Cut(s: Settings, path: Path) {
    exists k :: 1 <= k <= |path| && path[k - 1] != s.zipName &&
      Ignored(s.glob, s.patterns, PathText(path[..k]), k < |path|)
  }

  /** The packed paths, written out: every component visible, not the archive, and nothing on the way ignored. */
  lemma ChosenExactlyWhen(s: Settings, unixTime: nat, path: Path)
    requires s.zipName == ZipName(unixTime) && |path| >= 1
    ensures Chosen(s, path) <==> Visible(path) && Last(path) != s.zipName && !Cut(s, path)
  {
    forall k | 1 <= k <= |path|
      ensures Blocks(s, path[..k], k < |path|) <==>
        path[k - 1] != s.zipName && ("." <= path[k - 1] || Ignored(s.glob, s.patterns, PathText(path[..k]), k < |path|))
    {
      assert Last(path[..k]) == path[k - 1];
    }
    if Chosen(s, path) {
      ChosenIsVisible(s, unixTime, path);
    }
  }

  lemma ChosenIsVisible(s: Settings, unixTime: nat, path: Path)
    requires s.zipName == ZipName(unixTime) && Chosen(s, path)
    ensures Visible(path)
  {
    ZipNameIsVisible(unixTime);
    forall i | 0 <= i < |path| ensures !("." <= path[i]) {
      assert Last(path[..i + 1]) == path[i] && !Blocks(s, path[..i + 1], i + 1 < |path|);
    }
  }

  /** A file of the directory that is visible, is not the archive and is not cut off by a pattern. */
  ghost predicate ToPack(s: Settings, root: Forest, path: Path) {
    FileAt(root, path) && Visible(path) && Last(path) != s.zipName && !Cut(s, path)
  }

  /** The archive of a directory has exactly these files' names. */
  lemma ArchiveExactly(s: Settings, unixTime: nat, root: Forest, text: string)
    requires s.zipName == ZipName(unixTime)
    ensures text in Texts(Filter(s, Files(root, []))) <==>
      exists path :: ToPack(s, root, path) && text == PathText(path)
  {
    var kept := Filter(s, Files(root, []));
    forall path ensures path in kept <==> ToPack(s, root, path) {
      assert [] + path == path;
      FilesExactly(root, [], path);
      if path != [] {
        ChosenExactlyWhen(s, unixTime, path);
      }
    }
    if text in Texts(kept) {
      var i :| 0 <= i < |kept| && text == Texts(kept)[i];
      assert kept[i] in kept;
    }
    if path :| ToPack(s, root, path) && text == PathText(path) {
      var i :| 0 <= i < |kept| && kept[i] == path;
      assert Texts(kept)[i] == text;
    }
  }

  /** Every visible file below the root's vendor or node_modules is packed, whatever the patterns say. */
  lemma DependenciesArePacked(s: Settings, path: Path)
    requires IsPath(path) && Visible(path) && Last(path) != s.zipName
    requires path[0] == "vendor" || path[0] == "node_modules"
    ensures Chosen(s, path)
  {
    forall k | 1 <= k <= |path| ensures !Blocks(s, path[..k], k < |path|) {
      PrefixIsPath(path, k);
      UnderIsFirst(path[..k], path[0]);
      assert PROTECTED[0] == "vendor" && PROTECTED[1] == "node_modules";
      assert Protected(PathText(path[..k]));
    }
  }

  lemma TwoLevels(path: Path)
    requires |path| >= 2 && path[0] == "frontend" && path[1] == "dist"
    ensures Under(PathText(path), "frontend/dist")
  {
    var tail := path[1..];
    assert PathText(path) == "frontend" + ['/'] + Text.Join(tail, '/');
    assert "frontend" + ['/'] + "dist" == "frontend/dist";
    if |path| > 2 {
      var rest := Text.Join(tail[1..], '/');
      assert Text.Join(tail, '/') == "dist" + ['/'] + rest;
      assert PathText(path) == ("frontend/dist" + "/") + rest;
    }
  }

  lemma ZipNameIsNotFrontend(unixTime: nat)
    ensures ZipName(unixTime) != "frontend"
  {
    assert ZipName(unixTime)[0] == 'b';
  }

  /** Built frontend files are packed exactly when no pattern keeps the frontend directory itself out. */
  lemma FrontendIsPackedExactlyWhen(s: Settings, unixTime: nat, path: Path)
    requires s.zipName == ZipName(unixTime)
    requires IsPath(path) && Visible(path) && Last(path) != s.zipName
    requires |path| >= 3 && path[0] == "frontend" && path[1] == "dist"
    ensures Chosen(s, path) <==> !Verdict(s.glob, s.patterns, "frontend", true)
  {
    ZipNameIsNotFrontend(unixTime);
    assert path[..1] == ["frontend"] && PathText(path[..1]) == "frontend";
    FrontendIsNotProtected();
    forall k | 2 <= k <= |path| ensures !Blocks(s, path[..k], k < |path|) {
      TwoLevels(path[..k]);
      assert PROTECTED[2] == "frontend/dist";
      assert Protected(PathText(path[..k]));
    }
    assert Blocks(s, path[..1], true) <==> Verdict(s.glob, s.patterns, "frontend", true);
  }

  /** An input that fails: the pattern `frontend` alone keeps every built frontend file out. */
  lemma FrontendPatternKeepsDistOut(glob: Glob, unixTime: nat, path: Path)
    requires IsPath(path) && Visible(path) && Last(path) != ZipName(unixTime)
    requires |path| >= 3 && path[0] == "frontend" && path[1] == "dist"
    ensures !Chosen(Settings(glob, [Pattern("frontend", false, false)], ZipName(unixTime)), path)
  {
    var s := Settings(glob, [Pattern("frontend", false, false)], ZipName(unixTime));
    NameMatches(glob, "frontend", ["frontend"], true);
    assert PathText(["frontend"]) == "frontend";
    FrontendIsPackedExactlyWhen(s, unixTime, path);
  }

  lemma FrontendIsNotProtected()
    ensures !Protected("frontend")
  {
    var f: string := "frontend";
    assert f[0] == 'f';
    assert !Under(f, "vendor") && !Under(f, "node_modules") && |f| < |"frontend/dist"|;
  }

  predicate InProtected(path: Path)
    requires |path| >= 1
  {
    || path[0] == "vendor" || path[0] == "node_modules"
    || (|path| >= 2 && path[0] == "frontend" && path[1] == "dist")
  }

  /** With only names (no slash, no star, no negation) as patterns, the files packed outside the protected directories
      are the visible ones none of whose components is such a name: pruning carries a name's effect to everything
      below it. */
  lemma NamesKeepOutExactly(s: Settings, path: Path)
    requires IsPath(path) && Visible(path) && s.zipName !in path
    requires forall p :: p in s.patterns ==> !p.negation && '/' !in p.text && '*' !in p.text
    requires !InProtected(path)
    ensures Chosen(s, path) <==> forall p :: p in s.patterns ==> p.text !in path
  {
    forall k | 1 <= k <= |path|
      ensures Blocks(s, path[..k], k < |path|) <==> Names(s.patterns, path[0], path[k - 1])
    {
      NamesBlock(s, path, k);
    }
    if p :| p in s.patterns && p.text in path {
      var i :| 0 <= i < |path| && path[i] == p.text;
      assert Names(s.patterns, path[0], path[i + 1 - 1]);
      assert Blocks(s, path[..i + 1], i + 1 < |path|);
    }
  }

  /** Some pattern is one of the two components. */
  ghost predicate Names(patterns: seq<Pattern>, first: string, last: string) {
    exists p :: p in patterns && (first == p.text || last == p.text)
  }

  lemma NamesBlock(s: Settings, path: Path, k: nat)
    requires IsPath(path) && Visible(path) && s.zipName !in path && !InProtected(path) && 1 <= k <= |path|
    requires forall p :: p in s.patterns ==> !p.negation && '/' !in p.text && '*' !in p.text
    ensures Blocks(s, path[..k], k < |path|) <==> Names(s.patterns, path[0], path[k - 1])
  {
    PrefixIsPath(path, k);
    assert path[..k][0] == path[0] && Last(path[..k]) == path[k - 1];
    NotProtected(path[..k]);
    NamesVerdict(s.glob, s.patterns, path[..k], k < |path|);
  }

  lemma NotProtected(path: Path)
    requires IsPath(path) && !InProtected(path)
    ensures !Protected(PathText(path))
  {
    UnderIsFirst(path, "vendor");
    UnderIsFirst(path, "node_modules");
    if Under(PathText(path), "frontend/dist") {
      UnderDist(path);
    }
  }

  /** Only paths of the two components lie under frontend/dist. */
  lemma UnderDist(path: Path)
    requires IsPath(path) && Under(PathText(path), "frontend/dist")
    ensures |path| >= 2 && path[0] == "frontend" && path[1] == "dist"
  {
    PathParts(path);
    var first, second := DistParts();
    UnderTwo(PathText(path), first, second);
  }

  lemma DistParts() returns (first: string, second: string)
    ensures first == "frontend" && second == "dist" && first + ['/'] + second == "frontend/dist"
    ensures '/' !in first && '/' !in second
  {
    first, second := "frontend", "dist";
  }

  lemma UnderTwo(text: string, first: string, second: string)
    requires '/' !in first && '/' !in second && Under(text, first + ['/'] + second)
    ensures var parts := Text.Split(text, '/'); |parts| >= 2 && parts[0] == first && parts[1] == second
  {
    var dir := first + ['/'] + second;
    Text.SplitNoSep(first, '/');
    Text.SplitNoSep(second, '/');
    Text.SplitAtSep(first, second, '/');
    if text != dir {
      var rest := text[|dir| + 1..];
      assert text == dir + ['/'] + rest;
      Text.SplitAtSep(dir, rest, '/');
    }
  }

  lemma {:induction false} NamesVerdict(glob: Glob, patterns: seq<Pattern>, path: Path, isDir: bool)
    requires IsPath(path)
    requires forall p :: p in patterns ==> !p.negation && '/' !in p.text && '*' !in p.text
    ensures Verdict(glob, patterns, PathText(path), isDir) <==> Names(patterns, path[0], Last(path))
  {
    if patterns == [] {
    } else {
      var init, last := patterns[..|patterns| - 1], patterns[|patterns| - 1];
      assert patterns == init + [last];
      NamesVerdict(glob, init, path, isDir);
      VerdictSnoc(glob, init, last, PathText(path), isDir);
      NameMatches(glob, last.text, path, isDir);
      NamesSnoc(init, last, path[0], Last(path));
    }
  }

  lemma NamesSnoc(patterns: seq<Pattern>, p: Pattern, first: string, last: string)
    ensures Names(patterns + [p], first, last) <==> Names(patterns, first, last) || first == p.text || last == p.text
  {
    assert p in patterns + [p];
    if q :| q in patterns && (first == q.text || last == q.text) {
      assert q in patterns + [p];
    }
  }
}
