/** The CLI's `.env` editor: reading a key, inserting or replacing a key in place, and the
    operations on the compose file that are built from them. */
module EnvFile {
  import opened Results
  import opened Text

  const ADMIN_EMAIL_KEY := "QUANTFLOW_ADMIN_EMAIL"
  const ADMIN_PASSWORD_KEY := "QUANTFLOW_ADMIN_PASSWORD"
  const DOCKER_GID_KEY := "DOCKER_GID"
  const ADMIN_HEADER := "# Root admin"
  const DOCKER_HEADER := "# Docker socket access for non-root runtime services"

  /** A name that can stand before '=': no '=', no '#', no white space. */
  predicate ValidKey(key: string) {
    key != "" && forall c :: c in key ==> c != '=' && c != '#' && !IsSpace(c)
  }

  /** What ValidateAdminPassword accepts. */
  predicate ValidValue(value: string) {
    value != "" && Trim(value) == value && '\r' !in value && '\n' !in value && '#' !in value
  }

  // ---------- reading ----------

  predicate Assigns(line: string, key: string) {
    key + "=" <= Trim(line)
  }

  function ValueOf(line: string, key: string): string
    requires Assigns(line, key)
  {
    WithoutComment(Trim(Trim(line)[|key| + 1..]))
  }

  function WithoutComment(value: string): string {
    var hash := IndexOf(value, '#');
    if hash < |value| then Trim(value[..hash]) else value
  }

  predicate Mentions(lines: seq<string>, key: string) {
    exists i :: 0 <= i < |lines| && Assigns(lines[i], key)
  }

  /** The value on the first line that assigns the key; "" when there is none. */
  function Lookup(lines: seq<string>, key: string): string {
    if lines == [] then ""
    else if Assigns(lines[0], key) then ValueOf(lines[0], key)
    else Lookup(lines[1..], key)
  }

  predicate HasKey(content: string, key: string) {
    Mentions(Split(content, '\n'), key)
  }

  function Value(content: string, key: string): string {
    Lookup(Split(content, '\n'), key)
  }

  method HasEnvKey(content: string, key: string) returns (found: bool)
    ensures found <==> HasKey(content, key)
  {
    var lines := Split(content, '\n');
    for i := 0 to |lines|
      invariant forall j :: 0 <= j < i ==> !Assigns(lines[j], key)
    {
      if Assigns(lines[i], key) {
        return true;
      }
    }
    return false;
  }

  method EnvValue(content: string, key: string) returns (value: string)
    ensures value == Value(content, key)
  {
    var lines := Split(content, '\n');
    for i := 0 to |lines|
      invariant Lookup(lines, key) == Lookup(lines[i..], key)
    {
      assert lines[i..][1..] == lines[i + 1..];
      if !Assigns(lines[i], key) {
        continue;
      }
      var trimmed := Trim(lines[i]);
      value := Trim(trimmed[|key| + 1..]);
      var hash := IndexOf(value, '#');
      if hash < |value| {
        value := Trim(value[..hash]);
      }
      return value;
    }
    return "";
  }

  // ---------- writing ----------

  function TrailingComment(line: string): string {
    var hash := IndexOf(line, '#');
    if hash == |line| then "" else " " + Trim(line[hash..])
  }

  function Rewrite(line: string, key: string, value: string): string {
    if Assigns(line, key) then key + "=" + value + TrailingComment(line) else line
  }

  function Rewritten(lines: seq<string>, key: string, value: string): (r: seq<string>)
    ensures |r| == |lines|
    ensures forall i :: 0 <= i < |lines| ==> r[i] == Rewrite(lines[i], key, value)
  {
    if lines == [] then [] else [Rewrite(lines[0], key, value)] + Rewritten(lines[1..], key, value)
  }

  function WithFinalNewline(content: string): string {
    if Trim(content) != "" && content[|content| - 1] != '\n' then content + "\n" else content
  }

  /** The text in front of an appended assignment. */
  function Preamble(content: string): string {
    var closed := WithFinalNewline(content);
    if !HasKey(closed, ADMIN_EMAIL_KEY) && !HasKey(closed, ADMIN_PASSWORD_KEY)
    then closed + "\n" + ADMIN_HEADER + "\n"
    else closed
  }

  /** What upsertEnvValue returns. */
  function Upsert(content: string, key: string, value: string): string {
    if HasKey(content, key)
    then Join(Rewritten(Split(content, '\n'), key, value), '\n')
    else Preamble(content) + key + "=" + value + "\n"
  }

  /** The rewriting loop: replaces every line that assigns the key, in place. */
  method RewriteLines(lines: array<string>, key: string, value: string) returns (found: bool)
    modifies lines
    ensures lines[..] == Rewritten(old(lines[..]), key, value)
    ensures found <==> Mentions(old(lines[..]), key)
  {
    found := RewriteInto(lines, key, value, Rewritten(lines[..], key, value));
  }

  method RewriteInto(lines: array<string>, key: string, value: string, ghost after: seq<string>) returns (found: bool)
    requires AreRewritten(lines[..], after, key, value)
    modifies lines
    ensures lines[..] == after
    ensures found <==> Mentions(old(lines[..]), key)
  {
    ghost var before := lines[..];
    found := false;
    for i := 0 to lines.Length
      invariant forall j :: 0 <= j < i ==> lines[j] == after[j]
      invariant forall j :: i <= j < lines.Length ==> lines[j] == before[j]
      invariant found <==> exists j :: 0 <= j < i && Assigns(before[j], key)
    {
      var line, assigns := RewriteLine(lines[i], key, value, i, before, after);
      if assigns {
        lines[i] := line;
        found := true;
      }
    }
  }

  ghost predicate AreRewritten(before: seq<string>, after: seq<string>, key: string, value: string) {
    |before| == |after| &&
    forall i {:trigger Rewrite(before[i], key, value)} :: 0 <= i < |before| ==>
      after[i] == Rewrite(before[i], key, value)
  }

  /** One line of the loop. */
  method RewriteLine(line: string, key: string, value: string, ghost i: nat, ghost before: seq<string>,
                     ghost after: seq<string>) returns (rewritten: string, assigns: bool)
    requires AreRewritten(before, after, key, value) && i < |before| && line == before[i]
    ensures assigns <==> Assigns(line, key)
    ensures rewritten == after[i] && (!assigns ==> rewritten == line)
  {
    assert after[i] == Rewrite(line, key, value);
    assigns := Assigns(line, key);
    rewritten := if assigns then key + "=" + value + TrailingComment(line) else line;
  }

  method UpsertEnvValue(content: string, key: string, value: string) returns (updated: string)
    ensures updated == Upsert(content, key, value)
  {
    var pieces := Split(content, '\n');
    var lines := new string[|pieces|](i requires 0 <= i < |pieces| => pieces[i]);
    assert lines[..] == pieces;
    var found := RewriteLines(lines, key, value);
    updated := Join(lines[..], '\n');
    if found {
      return;
    }
    NothingRewritten(pieces, key, value);
    JoinSplit(content, '\n');
    assert updated == content;
    updated := AppendEnvValue(updated, key, value);
  }

  /** The tail of upsertEnvValue: no line assigned the key. */
  method AppendEnvValue(content: string, key: string, value: string) returns (updated: string)
    ensures updated == Preamble(content) + key + "=" + value + "\n"
  {
    updated := content;
    if Trim(updated) != "" && updated[|updated| - 1] != '\n' {
      updated := updated + "\n";
    }
    var hasEmail := HasEnvKey(updated, ADMIN_EMAIL_KEY);
    var hasPassword := HasEnvKey(updated, ADMIN_PASSWORD_KEY);
    if !hasEmail && !hasPassword {
      updated := updated + "\n" + ADMIN_HEADER + "\n";
    }
    updated := updated + key + "=" + value + "\n";
  }

  lemma NothingRewritten(lines: seq<string>, key: string, value: string)
    requires !Mentions(lines, key)
    ensures Rewritten(lines, key, value) == lines
  {
    forall i | 0 <= i < |lines|
      ensures Rewrite(lines[i], key, value) == lines[i]
    {
      assert !Assigns(lines[i], key);
    }
  }

  // ---------- one line ----------

  lemma AssignsOneKey(line: string, k: string, k2: string)
    requires ValidKey(k) && ValidKey(k2) && Assigns(line, k) && Assigns(line, k2)
    ensures k == k2
  {
    var t := Trim(line);
    assert t[|k|] == (k + "=")[|k|] == '=' && t[|k2|] == (k2 + "=")[|k2|] == '=';
    assert forall i :: 0 <= i < |k| ==> k[i] in k && (k + "=")[i] == t[i];
    assert forall i :: 0 <= i < |k2| ==> k2[i] in k2 && (k2 + "=")[i] == t[i];
  }

  lemma CommentShape(line: string)
    ensures var c := TrailingComment(line);
            c == "" || (|c| >= 2 && c[0] == ' ' && c[1] == '#' && Trimmed(c[1..]))
    ensures '\n' !in line ==> '\n' !in TrailingComment(line)
  {
    var hash := IndexOf(line, '#');
    if hash < |line| {
      TrimKeepsSolidStart(line[hash..]);
      TrimIsTrimmed(line[hash..]);
      if '\n' !in line {
        TrimOnlyDrops(line[hash..], '\n');
      }
    }
  }

  /** What stands behind the '=' of a rewritten line reads as the value. */
  lemma ReadRest(value: string, comment: string)
    requires ValidValue(value)
    requires comment == "" || (|comment| >= 2 && comment[0] == ' ' && comment[1] == '#' && Trimmed(comment[1..]))
    ensures Trimmed(value + comment)
    ensures WithoutComment(Trim(value + comment)) == value
  {
    var rest := value + comment;
    TrimIsTrimmed(value);
    TrimOfTrimmed(rest);
    IndexOfAfter(value, comment, '#');
    if comment == "" {
      assert rest == value;
    } else {
      assert rest[|rest| - 1] == comment[1..][|comment| - 2];
      assert IndexOf(comment, '#') == 1 by { assert comment[1..][0] == '#'; }
      assert rest[..|value| + 1] == value + " ";
      TrimOneSpace(value);
    }
  }

  lemma TrimOneSpace(value: string)
    requires value != "" && Trimmed(value)
    ensures Trim(value + " ") == value
  {
    var s := value + " ";
    assert s[..|s| - 1] == value && s[|s| - 1] == ' ' && s[0] == value[0];
    assert TrimRight(s) == TrimRight(value) == value;
  }

  /** A rewritten line assigns its key, reads back the value, and carries the same comment. */
  lemma RewrittenLine(line: string, key: string, value: string)
    requires ValidKey(key) && ValidValue(value) && Assigns(line, key)
    ensures var r := Rewrite(line, key, value);
            Assigns(r, key) && ValueOf(r, key) == value && TrailingComment(r) == TrailingComment(line)
    ensures '\n' !in line ==> '\n' !in Rewrite(line, key, value)
  {
    CommentShape(line);
    CommentedLine(key, value, TrailingComment(line));
  }

  lemma CommentedLine(key: string, value: string, comment: string)
    requires ValidKey(key) && ValidValue(value)
    requires comment == "" || (|comment| >= 2 && comment[0] == ' ' && comment[1] == '#' && Trimmed(comment[1..]))
    ensures var r := key + "=" + value + comment;
            Assigns(r, key) && ValueOf(r, key) == value && TrailingComment(r) == comment
    ensures '\n' !in comment ==> '\n' !in key + "=" + value + comment
  {
    assert key + "=" + value + comment == key + "=" + (value + comment);
    CommentedValue(key, value, comment);
    CommentOf(key, value, comment);
    if '\n' !in comment {
      NoNewlineIn(key, value, comment);
    }
  }

  lemma CommentedValue(key: string, value: string, comment: string)
    requires ValidKey(key) && ValidValue(value)
    requires comment == "" || (|comment| >= 2 && comment[0] == ' ' && comment[1] == '#' && Trimmed(comment[1..]))
    ensures var r := key + "=" + (value + comment); Assigns(r, key) && ValueOf(r, key) == value
  {
    ReadRest(value, comment);
    AssignmentLine(key, value + comment);
  }

  lemma NoNewlineIn(key: string, value: string, comment: string)
    requires ValidKey(key) && ValidValue(value) && '\n' !in comment
    ensures '\n' !in key + "=" + value + comment
  {
  }

  lemma AssignmentLine(key: string, rest: string)
    requires ValidKey(key) && Trimmed(rest)
    ensures var r := key + "=" + rest;
            Assigns(r, key) && Trim(r) == r && r[|key| + 1..] == rest
  {
    var r := key + "=" + rest;
    assert key[0] in key;
    assert r[0] == key[0];
    assert r[|r| - 1] == if rest == "" then '=' else rest[|rest| - 1];
    TrimOfTrimmed(r);
  }

  lemma CommentOf(key: string, value: string, comment: string)
    requires ValidKey(key) && ValidValue(value)
    requires comment == "" || (|comment| >= 2 && comment[0] == ' ' && comment[1] == '#' && Trimmed(comment[1..]))
    ensures TrailingComment(key + "=" + value + comment) == comment
  {
    assert '#' !in key + "=" + value;
    CommentAfter(key + "=" + value, comment);
  }

  lemma CommentAfter(before: string, comment: string)
    requires '#' !in before
    requires comment == "" || (|comment| >= 2 && comment[0] == ' ' && comment[1] == '#' && Trimmed(comment[1..]))
    ensures TrailingComment(before + comment) == comment
  {
    if comment == "" {
      assert before + comment == before;
      IndexOfAfter(before, comment, '#');
    } else {
      assert before + comment == before + " " + comment[1..] && comment == " " + comment[1..];
      MarkedAfter(before + " ", comment[1..]);
    }
  }

  lemma MarkedAfter(before: string, marked: string)
    requires '#' !in before && marked != "" && marked[0] == '#' && Trimmed(marked)
    ensures TrailingComment(before + marked) == " " + marked
  {
    IndexOfAfter(before, marked, '#');
    assert (before + marked)[|before|..] == marked;
    TrimOfTrimmed(marked);
  }

  // ---------- line lists ----------

  lemma {:induction false} LookupAppend(a: seq<string>, b: seq<string>, key: string)
    ensures Lookup(a + b, key) == if Mentions(a, key) then Lookup(a, key) else Lookup(b, key)
    ensures Mentions(a + b, key) <==> Mentions(a, key) || Mentions(b, key)
  {
    var ab := a + b;
    if Mentions(a, key) {
      var i :| 0 <= i < |a| && Assigns(a[i], key);
      assert Assigns(ab[i], key);
    }
    if Mentions(b, key) {
      var i :| 0 <= i < |b| && Assigns(b[i], key);
      assert Assigns(ab[|a| + i], key);
    }
    if a == [] {
      assert ab == b;
    } else if !Assigns(a[0], key) {
      assert ab[1..] == a[1..] + b;
      LookupAppend(a[1..], b, key);
      MentionsTail(a, key);
    }
  }

  lemma MentionsTail(lines: seq<string>, key: string)
    requires lines != [] && !Assigns(lines[0], key)
    ensures Mentions(lines, key) <==> Mentions(lines[1..], key)
  {
    if Mentions(lines, key) {
      var i :| 0 <= i < |lines| && Assigns(lines[i], key);
      assert Assigns(lines[1..][i - 1], key);
    }
  }

  lemma {:induction false} LookupRewritten(lines: seq<string>, key: string, value: string)
    requires ValidKey(key) && ValidValue(value)
    ensures Mentions(lines, key) ==> Lookup(Rewritten(lines, key, value), key) == value
    ensures Mentions(Rewritten(lines, key, value), key) <==> Mentions(lines, key)
  {
    if lines == [] {
    } else {
      var rest := Rewritten(lines[1..], key, value);
      LookupRewritten(lines[1..], key, value);
      assert Rewritten(lines, key, value)[1..] == rest;
      if Assigns(lines[0], key) {
        RewrittenLine(lines[0], key, value);
        assert Assigns(Rewritten(lines, key, value)[0], key);
      } else {
        MentionsTail(lines, key);
        MentionsTail(Rewritten(lines, key, value), key);
      }
    }
  }

  lemma {:induction false} LookupRewrittenFrame(lines: seq<string>, key: string, value: string, other: string)
    requires ValidKey(key) && ValidValue(value) && ValidKey(other) && other != key
    ensures Lookup(Rewritten(lines, key, value), other) == Lookup(lines, other)
    ensures Mentions(Rewritten(lines, key, value), other) <==> Mentions(lines, other)
  {
    if lines == [] {
    } else {
      var r := Rewritten(lines, key, value);
      LookupRewrittenFrame(lines[1..], key, value, other);
      assert r[1..] == Rewritten(lines[1..], key, value);
      if Assigns(lines[0], key) {
        RewrittenLine(lines[0], key, value);
        if Assigns(lines[0], other) { AssignsOneKey(lines[0], key, other); }
        if Assigns(r[0], other) { AssignsOneKey(r[0], key, other); }
      }
      if Assigns(lines[0], other) {
        assert Assigns(r[0], other);
      } else {
        MentionsTail(lines, other);
        MentionsTail(r, other);
      }
    }
  }

  lemma RewrittenTwice(lines: seq<string>, key: string, v1: string, v2: string)
    requires ValidKey(key) && ValidValue(v1) && ValidValue(v2)
    ensures Rewritten(Rewritten(lines, key, v1), key, v2) == Rewritten(lines, key, v2)
  {
    forall i | 0 <= i < |lines|
      ensures Rewrite(Rewrite(lines[i], key, v1), key, v2) == Rewrite(lines[i], key, v2)
    {
      if Assigns(lines[i], key) {
        RewrittenLine(lines[i], key, v1);
      }
    }
  }

  lemma SplitRewritten(content: string, key: string, value: string)
    requires ValidKey(key) && ValidValue(value)
    ensures var lines := Split(content, '\n');
            Split(Join(Rewritten(lines, key, value), '\n'), '\n') == Rewritten(lines, key, value)
  {
    var lines := Split(content, '\n');
    PiecesHaveNoSep(content, '\n');
    forall i | 0 <= i < |lines|
      ensures '\n' !in Rewritten(lines, key, value)[i]
    {
      if Assigns(lines[i], key) {
        RewrittenLine(lines[i], key, value);
      }
    }
    SplitJoin(Rewritten(lines, key, value), '\n');
  }

  // ---------- the appended form ----------

  lemma NeutralLines(key: string)
    requires ValidKey(key)
    ensures !Assigns("", key) && !Assigns(ADMIN_HEADER, key)
  {
    assert key[0] in key;
    assert (key + "=")[0] == key[0];
    assert ADMIN_HEADER[0] == '#';
    TrimKeepsSolidStart(ADMIN_HEADER);
  }

  /** A white-space text assigns nothing. */
  lemma BlankHasNoKey(content: string, key: string)
    requires Trim(content) == ""
    ensures !HasKey(content, key)
  {
    TrimEmpty(content);
    PiecesOfBlank(content, '\n');
    var lines := Split(content, '\n');
    forall i | 0 <= i < |lines|
      ensures !Assigns(lines[i], key)
    {
      TrimEmpty(lines[i]);
    }
  }

  ghost predicate ReadsLike(a: string, b: string) {
    forall key :: ValidKey(key) ==> (HasKey(a, key) <==> HasKey(b, key)) && Value(a, key) == Value(b, key)
  }

  lemma NeutralTail(a: string, b: string, tail: seq<string>)
    requires Split(a, '\n') == Split(b, '\n') + tail
    requires forall i :: 0 <= i < |tail| ==> tail[i] == "" || tail[i] == ADMIN_HEADER
    ensures ReadsLike(a, b)
  {
    var lines := Split(b, '\n');
    forall key | ValidKey(key)
      ensures (HasKey(a, key) <==> HasKey(b, key)) && Value(a, key) == Value(b, key)
    {
      NeutralLines(key);
      LookupAppend(lines, tail, key);
      NothingMentioned(lines, key);
      NothingMentioned(tail, key);
    }
  }

  lemma OneMoreLine(a: string, line: string)
    requires '\n' !in line
    ensures Split(a + "\n" + line, '\n') == Split(a, '\n') + [line]
  {
    SplitAtSep(a, line, '\n');
    SplitNoSep(line, '\n');
  }

  /** The text in front of an appended assignment is whole lines that read like the content. */
  lemma PreambleLines(content: string) returns (body: string)
    ensures Preamble(content) == body + "\n"
    ensures ReadsLike(body, content)
  {
    var closed := WithFinalNewline(content);
    var lines := Split(content, '\n');
    if closed != content {
      OneMoreLine(content, "");
      assert content + "\n" + "" == closed;
    }
    if !HasKey(closed, ADMIN_EMAIL_KEY) && !HasKey(closed, ADMIN_PASSWORD_KEY) {
      body := closed + "\n" + ADMIN_HEADER;
      OneMoreLine(closed, ADMIN_HEADER);
      NeutralTail(body, content, if closed == content then [ADMIN_HEADER] else [""] + [ADMIN_HEADER]);
    } else if closed != content {
      body := content;
    } else {
      KeyMeansText(content);
      body := content[..|content| - 1];
      OneMoreLine(body, "");
      assert content == body + "\n" + "";
      NeutralTail(content, body, [""]);
    }
  }

  lemma KeyMeansText(content: string)
    requires HasKey(content, ADMIN_EMAIL_KEY) || HasKey(content, ADMIN_PASSWORD_KEY)
    ensures Trim(content) != ""
  {
    if Trim(content) == "" {
      BlankHasNoKey(content, ADMIN_EMAIL_KEY);
      BlankHasNoKey(content, ADMIN_PASSWORD_KEY);
    }
  }

  lemma AppendedLines(content: string, body: string, key: string, value: string)
    requires ValidKey(key) && ValidValue(value) && Preamble(content) == body + "\n"
    ensures Split(Preamble(content) + key + "=" + value + "\n", '\n')
         == Split(body, '\n') + [key + "=" + value, ""]
  {
    var line := key + "=" + value;
    assert '\n' !in line;
    OneMoreLine(body, line);
    OneMoreLine(body + "\n" + line, "");
    assert Preamble(content) + key + "=" + value + "\n" == body + "\n" + line + "\n" + "";
  }

  /** A plain assignment line: it assigns only its key and has no comment. */
  lemma PlainLine(key: string, value: string)
    requires ValidKey(key) && ValidValue(value)
    ensures var line := key + "=" + value;
            Assigns(line, key) && ValueOf(line, key) == value && TrailingComment(line) == ""
  {
    var bare := key + "=";
    assert bare[|bare| - 1] == '=';
    assert Trimmed(bare);
    TrimOfTrimmed(bare);
    assert '#' !in bare;
    assert TrailingComment(bare) == "";
    RewrittenLine(bare, key, value);
    assert Rewrite(bare, key, value) == key + "=" + value;
  }

  // ---------- main results ----------

  /** Reading a key just written gives the value written. */
  lemma UpsertReadsBack(content: string, key: string, value: string)
    requires ValidKey(key) && ValidValue(value)
    ensures HasKey(Upsert(content, key, value), key)
    ensures Value(Upsert(content, key, value), key) == value
  {
    if HasKey(content, key) {
      SplitRewritten(content, key, value);
      LookupRewritten(Split(content, '\n'), key, value);
    } else {
      var body := PreambleLines(content);
      AppendedLines(content, body, key, value);
      PlainLine(key, value);
      var added := [key + "=" + value, ""];
      assert Assigns(added[0], key);
      LookupAppend(Split(body, '\n'), added, key);
    }
  }

  /** Every other key reads as before. */
  lemma UpsertFrame(content: string, key: string, value: string, other: string)
    requires ValidKey(key) && ValidValue(value) && ValidKey(other) && other != key
    ensures HasKey(Upsert(content, key, value), other) <==> HasKey(content, other)
    ensures Value(Upsert(content, key, value), other) == Value(content, other)
  {
    if HasKey(content, key) {
      SplitRewritten(content, key, value);
      LookupRewrittenFrame(Split(content, '\n'), key, value, other);
    } else {
      var body := PreambleLines(content);
      AppendedLines(content, body, key, value);
      AddedLineFrame(Split(body, '\n'), key, value, other);
    }
  }

  lemma AddedLineFrame(lines: seq<string>, key: string, value: string, other: string)
    requires ValidKey(key) && ValidValue(value) && ValidKey(other) && other != key
    ensures Mentions(lines + [key + "=" + value, ""], other) <==> Mentions(lines, other)
    ensures Lookup(lines + [key + "=" + value, ""], other) == Lookup(lines, other)
  {
    var added := [key + "=" + value, ""];
    PlainLine(key, value);
    NeutralLines(other);
    if Assigns(added[0], other) {
      AssignsOneKey(added[0], key, other);
    }
    LookupAppend(lines, added, other);
    NothingMentioned(lines, other);
    NothingMentioned(added, other);
  }

  lemma {:induction false} NothingMentioned(lines: seq<string>, key: string)
    ensures !Mentions(lines, key) ==> Lookup(lines, key) == ""
  {
    if lines != [] && !Mentions(lines, key) {
      assert !Assigns(lines[0], key);
      MentionsTail(lines, key);
      NothingMentioned(lines[1..], key);
    }
  }

  /** A second upsert of a key leaves no trace of the first. */
  lemma UpsertOverwrites(content: string, key: string, v1: string, v2: string)
    requires ValidKey(key) && ValidValue(v1) && ValidValue(v2)
    ensures Upsert(Upsert(content, key, v1), key, v2) == Upsert(content, key, v2)
  {
    var first := Upsert(content, key, v1);
    UpsertReadsBack(content, key, v1);
    if HasKey(content, key) {
      SplitRewritten(content, key, v1);
      RewrittenTwice(Split(content, '\n'), key, v1, v2);
    } else {
      var body := PreambleLines(content);
      AppendedLines(content, body, key, v1);
      AppendedLines(content, body, key, v2);
      PlainLine(key, v1);
      NeutralLines(key);
      var kept := Split(body, '\n');
      var line1, line2 := key + "=" + v1, key + "=" + v2;
      var lines1, lines2 := kept + [line1, ""], kept + [line2, ""];
      forall i | 0 <= i < |lines1|
        ensures Rewrite(lines1[i], key, v2) == lines2[i]
      {
        if i < |kept| {
          assert !HasKey(body, key);
        } else if i == |kept| {
          assert line2 + "" == line2;
        }
      }
      assert Rewritten(lines1, key, v2) == lines2;
      JoinSplit(Upsert(content, key, v2), '\n');
    }
  }

  // ---------- the compose file ----------

  datatype EnvError = EmailInvalid | PasswordInvalid | EnvMissing | EmailNotConfigured

  predicate EmailLocalChar(c: char) {
    'A' <= c <= 'Z' || 'a' <= c <= 'z' || '0' <= c <= '9' || c in ".!#$%&'*+/=?^_{|}~-"
  }

  predicate EmailDomainChar(c: char) {
    'A' <= c <= 'Z' || 'a' <= c <= 'z' || '0' <= c <= '9' || c == '-'
  }

  /** Two or more non-empty labels separated by dots. */
  predicate EmailDomain(domain: string) {
    && (forall c :: c in domain ==> EmailDomainChar(c) || c == '.')
    && var labels := Split(domain, '.');
       |labels| >= 2 && forall i :: 0 <= i < |labels| ==> labels[i] != ""
  }

  /** What ValidateAdminEmail accepts. */
  predicate ValidAdminEmail(email: string) {
    && email != ""
    && '\r' !in email && '\n' !in email && '=' !in email && '#' !in email
    && exists at :: 0 < at < |email| && email[at] == '@'
         && (forall i :: 0 <= i < at ==> EmailLocalChar(email[i]))
         && EmailDomain(email[at + 1..])
  }

  /** Each line on a line of its own. */
  function LineBlock(lines: seq<string>): string {
    if lines == [] then "" else "\n" + lines[0] + LineBlock(lines[1..])
  }

  function WithLines(content: string, lines: seq<string>): string {
    content + LineBlock(lines)
  }

  /** The admin lines that GenerateEnvFile finds missing. */
  function MissingAdminLines(content: string): seq<string> {
    if !HasKey(content, ADMIN_EMAIL_KEY) then
      if !HasKey(content, ADMIN_PASSWORD_KEY)
      then [ADMIN_HEADER, ADMIN_EMAIL_KEY + "=", ADMIN_PASSWORD_KEY + "=", ""]
      else [ADMIN_HEADER, ADMIN_EMAIL_KEY + "=", ""]
    else if !HasKey(content, ADMIN_PASSWORD_KEY) then [ADMIN_PASSWORD_KEY + "=", ""]
    else []
  }

  function MissingDockerLines(content: string, gid: string): seq<string> {
    if HasKey(content, DOCKER_GID_KEY) then []
    else [DOCKER_HEADER, DOCKER_GID_KEY + "=" + gid, ""]
  }

  /** An existing file after GenerateEnvFile. */
  function Completed(content: string, gid: string): string {
    WithLines(WithLines(content, MissingAdminLines(content)), MissingDockerLines(content, gid))
  }

  /** The file after both admin keys are written; an empty password is left alone. */
  function WithCredentials(content: string, email: string, password: string): string {
    var c := Upsert(content, ADMIN_EMAIL_KEY, email);
    if password != "" then Upsert(c, ADMIN_PASSWORD_KEY, password) else c
  }

  /** The `.env` file of one compose directory. */
  class ComposeEnv {
    var text: Option<string>

    method GenerateEnvFile(defaults: string, gid: string)
      modifies this
      ensures text == Some(if old(text).None? then defaults else Completed(old(text).value, gid))
    {
      if text.None? {
        text := Some(defaults);
        return;
      }
      var content := text.value;
      var file := content;
      var hasEmail := HasEnvKey(content, ADMIN_EMAIL_KEY);
      var hasPassword := HasEnvKey(content, ADMIN_PASSWORD_KEY);
      if !hasEmail {
        var block := "\n" + ADMIN_HEADER + "\n" + ADMIN_EMAIL_KEY + "=\n";
        if !hasPassword {
          block := block + ADMIN_PASSWORD_KEY + "=\n";
        }
        file := file + block;
      }
      if hasEmail && !hasPassword {
        file := file + ("\n" + ADMIN_PASSWORD_KEY + "=\n");
      }
      AdminBlocks();
      assert file == WithLines(content, MissingAdminLines(content));
      var hasGid := HasEnvKey(content, DOCKER_GID_KEY);
      if !hasGid {
        BlockOfThree(DOCKER_HEADER, DOCKER_GID_KEY + "=" + gid, "");
        assert LineBlock(MissingDockerLines(content, gid))
            == "\n" + DOCKER_HEADER + "\n" + DOCKER_GID_KEY + "=" + gid + "\n";
        file := file + ("\n" + DOCKER_HEADER + "\n" + DOCKER_GID_KEY + "=" + gid + "\n");
      }
      assert file == Completed(content, gid);
      text := Some(file);
    }

    method SetAdminCredentials(email: string, password: string) returns (r: Result<(), EnvError>)
      modifies this
      ensures !ValidAdminEmail(Trim(email)) ==> r == Err(EmailInvalid)
      ensures ValidAdminEmail(Trim(email)) && password != "" && !ValidValue(password) ==> r == Err(PasswordInvalid)
      ensures ValidAdminEmail(Trim(email)) && (password == "" || ValidValue(password)) ==>
        r == if old(text).None? then Err(EnvMissing) else Ok(())
      ensures text == if r.Ok? then Some(WithCredentials(old(text).value, Trim(email), password)) else old(text)
    {
      var trimmed := Trim(email);
      if !ValidAdminEmail(trimmed) {
        return Err(EmailInvalid);
      }
      if password != "" && !ValidValue(password) {
        return Err(PasswordInvalid);
      }
      if text.None? {
        return Err(EnvMissing);
      }
      var content := UpsertEnvValue(text.value, ADMIN_EMAIL_KEY, trimmed);
      if password != "" {
        content := UpsertEnvValue(content, ADMIN_PASSWORD_KEY, password);
      }
      text := Some(content);
      return Ok(());
    }

    method SetAdminPassword(password: string) returns (r: Result<(), EnvError>)
      modifies this
      ensures r == if !ValidValue(password) then Err(PasswordInvalid)
                   else if old(text).None? then Err(EnvMissing)
                   else if Value(old(text).value, ADMIN_EMAIL_KEY) == "" then Err(EmailNotConfigured)
                   else Ok(())
      ensures text == if r.Ok? then Some(Upsert(old(text).value, ADMIN_PASSWORD_KEY, password)) else old(text)
    {
      if !ValidValue(password) {
        return Err(PasswordInvalid);
      }
      if text.None? {
        return Err(EnvMissing);
      }
      var email := EnvValue(text.value, ADMIN_EMAIL_KEY);
      if email == "" {
        return Err(EmailNotConfigured);
      }
      var content := UpsertEnvValue(text.value, ADMIN_PASSWORD_KEY, password);
      text := Some(content);
      return Ok(());
    }
  }

  lemma BlockOfTwo(a: string, b: string)
    ensures LineBlock([a, b]) == "\n" + a + "\n" + b
  {
    assert [a, b][1..] == [b];
    assert LineBlock([b]) == "\n" + b + LineBlock([]);
  }

  lemma BlockOfThree(a: string, b: string, c: string)
    ensures LineBlock([a, b, c]) == "\n" + a + "\n" + b + "\n" + c
  {
    assert [a, b, c][1..] == [b, c];
    BlockOfTwo(b, c);
  }

  /** The three texts that GenerateEnvFile appends for missing admin keys. */
  lemma AdminBlocks()
    ensures LineBlock([ADMIN_HEADER, ADMIN_EMAIL_KEY + "=", ADMIN_PASSWORD_KEY + "=", ""])
         == "\n" + ADMIN_HEADER + "\n" + ADMIN_EMAIL_KEY + "=\n" + ADMIN_PASSWORD_KEY + "=\n"
    ensures LineBlock([ADMIN_HEADER, ADMIN_EMAIL_KEY + "=", ""])
         == "\n" + ADMIN_HEADER + "\n" + ADMIN_EMAIL_KEY + "=\n"
    ensures LineBlock([ADMIN_PASSWORD_KEY + "=", ""]) == "\n" + ADMIN_PASSWORD_KEY + "=\n"
  {
    var h, e, p := ADMIN_HEADER, ADMIN_EMAIL_KEY + "=", ADMIN_PASSWORD_KEY + "=";
    assert [h, e, p, ""][1..] == [e, p, ""];
    BlockOfThree(e, p, "");
    BlockOfThree(h, e, "");
    BlockOfTwo(p, "");
  }

  // ---------- results about the compose file ----------

  lemma WithLinesStep(content: string, lines: seq<string>)
    requires lines != []
    ensures WithLines(content, lines) == WithLines(content + "\n" + lines[0], lines[1..])
  {
  }

  lemma {:induction false} SplitWithLines(content: string, lines: seq<string>)
    requires NoNewline(lines)
    ensures Split(WithLines(content, lines), '\n') == Split(content, '\n') + lines
    decreases lines
  {
    var before := Split(content, '\n');
    if lines == [] {
      assert WithLines(content, lines) == content;
      assert before + lines == before;
    } else {
      OneMoreLine(content, lines[0]);
      WithLinesStep(content, lines);
      SplitWithLines(content + "\n" + lines[0], lines[1..]);
      MoveOver(before, lines);
    }
  }

  lemma MoveOver(before: seq<string>, lines: seq<string>)
    requires lines != []
    ensures (before + [lines[0]]) + lines[1..] == before + lines
  {
  }

  /** Appending lines never changes what an existing key reads as. */
  lemma WithLinesKeeps(content: string, lines: seq<string>, key: string)
    requires NoNewline(lines)
    ensures HasKey(WithLines(content, lines), key) <==> HasKey(content, key) || Mentions(lines, key)
    ensures HasKey(content, key) ==> Value(WithLines(content, lines), key) == Value(content, key)
    ensures content <= WithLines(content, lines)
  {
    SplitWithLines(content, lines);
    LookupAppend(Split(content, '\n'), lines, key);
  }

  lemma EmptyAssignment(key: string)
    requires ValidKey(key)
    ensures Assigns(key + "=", key)
  {
    AssignmentLine(key, "");
    assert key + "=" + "" == key + "=";
  }

  lemma GidAssignment(key: string, gid: string)
    requires ValidKey(key)
    ensures Assigns(key + "=" + gid, key)
  {
    var line := key + "=" + gid;
    assert key[0] in key;
    TrimRightKeepsHead(line);
    AssignmentSurvives(key + "=", gid);
  }

  /** Trimming the right end stops at solid text. */
  lemma {:induction false} AssignmentSurvives(solid: string, tail: string)
    requires solid != "" && !IsSpace(solid[0]) && !IsSpace(solid[|solid| - 1])
    ensures solid <= Trim(solid + tail)
  {
    var s := solid + tail;
    if tail == "" {
      assert s == solid;
    } else if IsSpace(tail[|tail| - 1]) {
      AssignmentSurvives(solid, tail[..|tail| - 1]);
      assert s[..|s| - 1] == solid + tail[..|tail| - 1];
    } else {
      assert Trimmed(s);
    }
  }

  predicate UpperOrUnderscore(c: char) {
    'A' <= c <= 'Z' || c == '_'
  }

  lemma UpperKeyIsValid(key: string)
    requires key != "" && forall c :: c in key ==> UpperOrUnderscore(c)
    ensures ValidKey(key)
  {
  }

  lemma StandardKeysAreValid()
    ensures ValidKey(ADMIN_EMAIL_KEY) && ValidKey(ADMIN_PASSWORD_KEY) && ValidKey(DOCKER_GID_KEY)
  {
    UpperKeyIsValid(ADMIN_EMAIL_KEY);
    UpperKeyIsValid(ADMIN_PASSWORD_KEY);
    UpperKeyIsValid(DOCKER_GID_KEY);
  }

  lemma AdminLinesMention(content: string)
    ensures HasKey(content, ADMIN_EMAIL_KEY) || Mentions(MissingAdminLines(content), ADMIN_EMAIL_KEY)
    ensures HasKey(content, ADMIN_PASSWORD_KEY) || Mentions(MissingAdminLines(content), ADMIN_PASSWORD_KEY)
  {
    StandardKeysAreValid();
    var admin := MissingAdminLines(content);
    EmptyAssignment(ADMIN_EMAIL_KEY);
    EmptyAssignment(ADMIN_PASSWORD_KEY);
    if !HasKey(content, ADMIN_EMAIL_KEY) {
      assert Assigns(admin[1], ADMIN_EMAIL_KEY);
    }
    if !HasKey(content, ADMIN_PASSWORD_KEY) {
      assert Assigns(admin[|admin| - 2], ADMIN_PASSWORD_KEY);
    }
  }

  predicate NoNewline(lines: seq<string>) {
    forall i :: 0 <= i < |lines| ==> '\n' !in lines[i]
  }

  /** Shown on short pieces of the literal, which the verifier can look through. */
  lemma DockerHeaderIsALine()
    ensures '\n' !in DOCKER_HEADER
  {
    DockerHeaderStart();
    DockerHeaderEnd();
    assert DOCKER_HEADER == DOCKER_HEADER[..26] + DOCKER_HEADER[26..];
  }

  lemma DockerHeaderStart()
    ensures |DOCKER_HEADER| >= 26 && '\n' !in DOCKER_HEADER[..26]
  {
    assert DOCKER_HEADER[..26] == "# Docker socket access for";
  }

  lemma DockerHeaderEnd()
    ensures |DOCKER_HEADER| >= 26 && '\n' !in DOCKER_HEADER[26..]
  {
    assert DOCKER_HEADER[26..] == " non-root runtime services";
  }

  lemma MissingLinesAreLines(content: string, gid: string)
    requires '\n' !in gid
    ensures NoNewline(MissingAdminLines(content)) && NoNewline(MissingDockerLines(content, gid))
  {
    assert '\n' !in ADMIN_EMAIL_KEY && '\n' !in ADMIN_PASSWORD_KEY && '\n' !in DOCKER_GID_KEY;
    assert '\n' !in ADMIN_HEADER;
    DockerHeaderIsALine();
  }

  lemma DockerLinesMention(content: string, gid: string)
    ensures HasKey(content, DOCKER_GID_KEY) || Mentions(MissingDockerLines(content, gid), DOCKER_GID_KEY)
  {
    StandardKeysAreValid();
    GidAssignment(DOCKER_GID_KEY, gid);
    if !HasKey(content, DOCKER_GID_KEY) {
      assert Assigns(MissingDockerLines(content, gid)[1], DOCKER_GID_KEY);
    }
  }

  /** GenerateEnvFile on an existing file only appends, keeps every existing value, and leaves all three
      keys present. */
  lemma GenerateCompletes(content: string, gid: string)
    requires '\n' !in gid
    ensures content <= Completed(content, gid)
    ensures HasKey(Completed(content, gid), ADMIN_EMAIL_KEY)
    ensures HasKey(Completed(content, gid), ADMIN_PASSWORD_KEY)
    ensures HasKey(Completed(content, gid), DOCKER_GID_KEY)
    ensures forall key :: HasKey(content, key) ==> Value(Completed(content, gid), key) == Value(content, key)
  {
    var admin, docker := MissingAdminLines(content), MissingDockerLines(content, gid);
    var middle := WithLines(content, admin);
    MissingLinesAreLines(content, gid);
    AdminLinesMention(content);
    DockerLinesMention(content, gid);
    forall key
      ensures HasKey(content, key) ==> Value(Completed(content, gid), key) == Value(content, key)
      ensures HasKey(Completed(content, gid), key) <==>
        HasKey(content, key) || Mentions(admin, key) || Mentions(docker, key)
    {
      WithLinesKeeps(content, admin, key);
      WithLinesKeeps(middle, docker, key);
    }
    WithLinesKeeps(content, admin, DOCKER_GID_KEY);
    WithLinesKeeps(middle, docker, DOCKER_GID_KEY);
  }

  /** A second GenerateEnvFile changes nothing. */
  lemma GenerateIsIdempotent(content: string, gid: string, gid2: string)
    requires '\n' !in gid
    ensures Completed(Completed(content, gid), gid2) == Completed(content, gid)
  {
    GenerateCompletes(content, gid);
  }

  /** An accepted admin email can be written to the file and read back. */
  lemma EmailIsValidValue(email: string)
    requires ValidAdminEmail(email)
    ensures ValidValue(email)
  {
    var at := EmailParts(email);
    DomainEndsSolid(email[at + 1..]);
    LocalIsSolid(email[0]);
    assert email[|email| - 1] == email[at + 1..][|email| - at - 2];
    TrimOfTrimmed(email);
  }

  lemma EmailParts(email: string) returns (at: nat)
    requires ValidAdminEmail(email)
    ensures at < |email| && EmailLocalChar(email[0]) && EmailDomain(email[at + 1..])
  {
    at :| 0 < at < |email| && email[at] == '@'
       && (forall i :: 0 <= i < at ==> EmailLocalChar(email[i]))
       && EmailDomain(email[at + 1..]);
  }

  lemma LocalIsSolid(c: char)
    requires EmailLocalChar(c)
    ensures !IsSpace(c)
  {
    if c in ".!#$%&'*+/=?^_{|}~-" {
      assert '!' <= c <= '~';
    }
  }

  lemma DomainEndsSolid(domain: string)
    requires EmailDomain(domain)
    ensures domain != "" && !IsSpace(domain[|domain| - 1])
  {
    assert Split("", '.') == [""];
    assert domain[|domain| - 1] in domain;
  }

  /** After a successful SetAdminCredentials both keys read back what was given, and every other key
      reads as before. */
  lemma CredentialsTakeEffect(content: string, email: string, password: string, other: string)
    requires ValidAdminEmail(email) && (password == "" || ValidValue(password))
    requires ValidKey(other) && other != ADMIN_EMAIL_KEY && other != ADMIN_PASSWORD_KEY
    ensures var c := WithCredentials(content, email, password);
            && Value(c, ADMIN_EMAIL_KEY) == email
            && Value(c, ADMIN_PASSWORD_KEY) == (if password != "" then password else Value(content, ADMIN_PASSWORD_KEY))
            && Value(c, other) == Value(content, other)
  {
    StandardKeysAreValid();
    EmailIsValidValue(email);
    var c := Upsert(content, ADMIN_EMAIL_KEY, email);
    UpsertReadsBack(content, ADMIN_EMAIL_KEY, email);
    assert ADMIN_EMAIL_KEY[|ADMIN_EMAIL_KEY| - 1] != ADMIN_PASSWORD_KEY[|ADMIN_PASSWORD_KEY| - 1];
    UpsertFrame(content, ADMIN_EMAIL_KEY, email, ADMIN_PASSWORD_KEY);
    UpsertFrame(content, ADMIN_EMAIL_KEY, email, other);
    if password != "" {
      UpsertReadsBack(c, ADMIN_PASSWORD_KEY, password);
      UpsertFrame(c, ADMIN_PASSWORD_KEY, password, ADMIN_EMAIL_KEY);
      UpsertFrame(c, ADMIN_PASSWORD_KEY, password, other);
    }
  }
}
