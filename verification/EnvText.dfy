/** What reading and writing the `.env` file means for its text: which line counts, what its value is, which lines a
    write changes, and what generation adds. */
module EnvText {
  import opened EnvFile
  import opened Text

  // ---------- reading ----------

  /** The first line that assigns a key decides. */
  lemma {:induction false} FirstLineDecides(lines: seq<string>, key: string, i: nat)
    requires i < |lines| && Assigns(lines[i], key) && forall j :: 0 <= j < i ==> !Assigns(lines[j], key)
    ensures Mentions(lines, key) && Lookup(lines, key) == ValueOf(lines[i], key)
    decreases lines
  {
    if i == 0 {
    } else {
      FirstLineDecides(lines[1..], key, i - 1);
    }
  }

  /** Reading a text line by line: a first line that assigns the key gives the value, any other first line is passed. */
  lemma ValueLineByLine(line: string, more: string, key: string)
    requires '\n' !in line
    ensures Assigns(line, key) ==>
      HasKey(line + "\n" + more, key) && Value(line + "\n" + more, key) == ValueOf(line, key)
    ensures !Assigns(line, key) ==>
      (HasKey(line + "\n" + more, key) <==> HasKey(more, key)) && Value(line + "\n" + more, key) == Value(more, key)
  {
    SplitAtSep(line, more, '\n');
    SplitNoSep(line, '\n');
    LookupAppend([line], Split(more, '\n'), key);
    OneLine(line, key);
  }

  /** A text of one line, the empty one included. */
  lemma ValueOfOneLine(line: string, key: string)
    requires '\n' !in line
    ensures HasKey(line, key) <==> Assigns(line, key)
    ensures Value(line, key) == if Assigns(line, key) then ValueOf(line, key) else ""
  {
    SplitNoSep(line, '\n');
    OneLine(line, key);
  }

  lemma OneLine(line: string, key: string)
    ensures Mentions([line], key) <==> Assigns(line, key)
    ensures Lookup([line], key) == if Assigns(line, key) then ValueOf(line, key) else ""
  {
    if Assigns(line, key) {
      assert Assigns([line][0], key);
    }
  }

  /** A line assigns a key when its text, without white space around it, begins with the key and an equals sign; its
      value is what follows, up to the first `#`, without white space around it. */
  lemma LineReads(line: string, key: string, front: string, value: string, back: string, comment: string)
    requires Trim(line) == key + "=" + (front + value + back + comment)
    requires Blank(front) && Blank(back) && Trimmed(value) && '#' !in value && (comment == "" || comment[0] == '#')
    ensures Assigns(line, key) && ValueOf(line, key) == value
  {
    var rest := front + value + back + comment;
    assert Trim(line)[|key| + 1..] == rest;
    if comment == "" {
      assert rest == front + value + back;
      TrimIs(front, value, back);
      NoHash(value);
    } else {
      TrimIsTrimmed(line);
      assert rest[|rest| - 1] == comment[|comment| - 1] && Trim(line)[|Trim(line)| - 1] == rest[|rest| - 1];
      CommentedRest(front, value, back, comment);
    }
  }

  lemma NoHash(value: string)
    requires '#' !in value
    ensures WithoutComment(value) == value
  {
  }

  lemma BlankHasNoHash(s: string)
    requires Blank(s)
    ensures '#' !in s
  {
  }

  lemma CommentedRest(front: string, value: string, back: string, comment: string)
    requires Blank(front) && Blank(back) && Trimmed(value) && '#' !in value
    requires comment != "" && comment[0] == '#' && !IsSpace(comment[|comment| - 1])
    ensures WithoutComment(Trim(front + value + back + comment)) == value
  {
    BlankHasNoHash(back);
    if value == "" {
      assert front + value + back + comment == (front + back) + comment + "";
      TrimIs(front + back, comment, "");
    } else {
      var text := value + back + comment;
      assert front + value + back + comment == front + text + "";
      TrimIs(front, text, "");
      assert text == (value + back) + comment;
      IndexOfAfter(value + back, comment, '#');
      assert text[..|value + back|] == value + back && value + back == "" + value + back;
      TrimIs("", value, back);
    }
  }

  // ---------- rewriting ----------

  /** Writing a key that is there: the lines that assign it get the new value and keep their comment, all others stay,
      and no line comes or goes. */
  lemma RewritesLines(content: string, key: string, value: string, i: nat)
    requires ValidKey(key) && ValidValue(value) && HasKey(content, key) && i < |Split(content, '\n')|
    ensures var lines, after := Split(content, '\n'), Split(Upsert(content, key, value), '\n');
      && |after| == |lines|
      && after[i] == if key + "=" <= Trim(lines[i]) then key + "=" + value + TrailingComment(lines[i]) else lines[i]
  {
    SplitRewritten(content, key, value);
  }

  /** The comment of a line: its text from the first `#` on, without white space around it, behind one space. */
  lemma CommentIs(before: string, after: string)
    requires '#' !in before
    ensures TrailingComment(before) == ""
    ensures TrailingComment(before + "#" + after) == " " + Trim("#" + after)
  {
    IndexOfAfter(before, "#" + after, '#');
    IndexOfAfter(before, "", '#');
    assert before + "" == before;
    assert before + "#" + after == before + ("#" + after);
    assert (before + ("#" + after))[|before|..] == "#" + after;
  }

  // ---------- appending ----------

  /** Ending the last line changes no reading. */
  lemma FinalNewlineReads(content: string, key: string)
    requires ValidKey(key)
    ensures HasKey(content + "\n", key) <==> HasKey(content, key)
    ensures Value(content + "\n", key) == Value(content, key)
  {
    OneMoreLine(content, "");
    assert content + "\n" + "" == content + "\n";
    NeutralTail(content + "\n", content, [""]);
  }

  /** Writing a key that is not there: the text stays as it is, gets a final newline when it has text without one, the
      heading when neither admin key is there, and the assignment on a line of its own. */
  lemma AppendsText(content: string, key: string, value: string)
    requires !HasKey(content, key)
    ensures var heading := !HasKey(content, "QUANTFLOW_ADMIN_EMAIL") && !HasKey(content, "QUANTFLOW_ADMIN_PASSWORD");
      Upsert(content, key, value) ==
        (if Trim(content) != "" && content[|content| - 1] != '\n' then content + "\n" else content)
        + (if heading then "\n# Root admin\n" else "") + key + "=" + value + "\n"
  {
    StandardKeysAreValid();
    FinalNewlineReads(content, ADMIN_EMAIL_KEY);
    FinalNewlineReads(content, ADMIN_PASSWORD_KEY);
    var closed := WithFinalNewline(content);
    HeadingText(closed);
    assert closed + "" == closed;
  }

  lemma HeadingText(closed: string)
    ensures closed + "\n" + ADMIN_HEADER + "\n" == closed + "\n# Root admin\n"
  {
    assert "\n" + ADMIN_HEADER + "\n" == "\n# Root admin\n";
    assert closed + "\n" + ADMIN_HEADER + "\n" == closed + ("\n" + ADMIN_HEADER + "\n");
  }

  // ---------- generation ----------

  /** The lines of an existing file after generation. */
  lemma CompletedLines(content: string, gid: string)
    requires '\n' !in gid
    ensures Split(Completed(content, gid), '\n')
         == Split(content, '\n') + MissingAdminLines(content) + MissingDockerLines(content, gid)
  {
    MissingLinesAreLines(content, gid);
    SplitWithLines(content, MissingAdminLines(content));
    SplitWithLines(WithLines(content, MissingAdminLines(content)), MissingDockerLines(content, gid));
  }

  /** How the completed text reads: first the old text, then the admin lines, then the group id's. */
  lemma CompletedReads(content: string, gid: string, key: string)
    requires '\n' !in gid
    ensures var admin, docker := MissingAdminLines(content), MissingDockerLines(content, gid);
      && (HasKey(Completed(content, gid), key) <==>
            HasKey(content, key) || Mentions(admin, key) || Mentions(docker, key))
      && Value(Completed(content, gid), key) ==
           if HasKey(content, key) then Value(content, key)
           else if Mentions(admin, key) then Lookup(admin, key)
           else Lookup(docker, key)
  {
    CompletedLines(content, gid);
    LookupAppend(Split(content, '\n'), MissingAdminLines(content), key);
    LookupAppend(Split(content, '\n') + MissingAdminLines(content), MissingDockerLines(content, gid), key);
  }

  lemma KeysDiffer()
    ensures ADMIN_EMAIL_KEY != ADMIN_PASSWORD_KEY && ADMIN_EMAIL_KEY != DOCKER_GID_KEY
    ensures ADMIN_PASSWORD_KEY != DOCKER_GID_KEY
  {
    assert |ADMIN_EMAIL_KEY| == 21 && |ADMIN_PASSWORD_KEY| == 24 && |DOCKER_GID_KEY| == 10;
  }

  /** The lines that are no assignment. */
  lemma HeaderIsNeutral(key: string)
    requires ValidKey(key)
    ensures !Assigns(DOCKER_HEADER, key) && !Assigns(ADMIN_HEADER, key) && !Assigns("", key)
  {
    NeutralLines(key);
    assert key[0] in key && (key + "=")[0] == key[0];
    DockerHeaderIsComment();
    TrimKeepsSolidStart(DOCKER_HEADER);
  }

  lemma DockerHeaderIsComment()
    ensures DOCKER_HEADER != "" && DOCKER_HEADER[0] == '#'
  {
    assert DOCKER_HEADER[..26] == "# Docker socket access for";
    assert DOCKER_HEADER[..26][0] == '#';
  }

  lemma EmptyReads(key: string, other: string)
    requires ValidKey(key) && ValidKey(other)
    ensures Assigns(key + "=", other) <==> other == key
    ensures ValueOf(key + "=", key) == ""
  {
    AssignmentLine(key, "");
    assert key + "=" + "" == key + "=";
    if Assigns(key + "=", other) {
      AssignsOneKey(key + "=", key, other);
    }
  }

  lemma GidReads(gid: string, other: string)
    requires ValidValue(gid) && ValidKey(other)
    ensures var line := DOCKER_GID_KEY + "=" + gid;
      && (Assigns(line, other) <==> other == DOCKER_GID_KEY)
      && Assigns(line, DOCKER_GID_KEY) && ValueOf(line, DOCKER_GID_KEY) == gid
  {
    StandardKeysAreValid();
    PlainLine(DOCKER_GID_KEY, gid);
    if Assigns(DOCKER_GID_KEY + "=" + gid, other) {
      AssignsOneKey(DOCKER_GID_KEY + "=" + gid, DOCKER_GID_KEY, other);
    }
  }

  /** What the added admin lines say. */
  lemma AdminLinesRead(content: string, key: string)
    requires ValidKey(key)
    ensures var admin := MissingAdminLines(content);
      && (Mentions(admin, key) <==>
            !HasKey(content, key) && (key == ADMIN_EMAIL_KEY || key == ADMIN_PASSWORD_KEY))
      && Lookup(admin, key) == ""
  {
    StandardKeysAreValid();
    KeysDiffer();
    HeaderIsNeutral(key);
    EmptyReads(ADMIN_EMAIL_KEY, key);
    EmptyReads(ADMIN_PASSWORD_KEY, key);
    AdminBlock(MissingAdminLines(content), !HasKey(content, ADMIN_EMAIL_KEY), !HasKey(content, ADMIN_PASSWORD_KEY),
               ADMIN_HEADER, ADMIN_EMAIL_KEY + "=", ADMIN_PASSWORD_KEY + "=", key);
  }

  lemma AdminBlock(lines: seq<string>, email: bool, password: bool, h: string, e: string, p: string, key: string)
    requires lines ==
      if email then (if password then [h, e, p, ""] else [h, e, ""]) else if password then [p, ""] else []
    requires !Assigns("", key) && !Assigns(h, key) && SaysNothing(e, key) && SaysNothing(p, key)
    ensures Mentions(lines, key) <==> (email && Assigns(e, key)) || (password && Assigns(p, key))
    ensures Lookup(lines, key) == ""
  {
    FourLines(h, e, p, key);
    ThreeLines(h, e, key);
    TwoLines(p, key);
  }

  predicate SaysNothing(line: string, key: string) {
    Assigns(line, key) ==> ValueOf(line, key) == ""
  }

  lemma TwoLines(p: string, key: string)
    requires !Assigns("", key) && SaysNothing(p, key)
    ensures (Mentions([p, ""], key) <==> Assigns(p, key)) && Lookup([p, ""], key) == ""
  {
    assert [p, ""][0] == p;
    NoneOrEmpty([p, ""], key);
  }

  lemma ThreeLines(h: string, e: string, key: string)
    requires !Assigns("", key) && !Assigns(h, key) && SaysNothing(e, key)
    ensures (Mentions([h, e, ""], key) <==> Assigns(e, key)) && Lookup([h, e, ""], key) == ""
  {
    assert [h, e, ""][1] == e;
    NoneOrEmpty([h, e, ""], key);
  }

  lemma FourLines(h: string, e: string, p: string, key: string)
    requires !Assigns("", key) && !Assigns(h, key) && SaysNothing(e, key) && SaysNothing(p, key)
    ensures Mentions([h, e, p, ""], key) <==> Assigns(e, key) || Assigns(p, key)
    ensures Lookup([h, e, p, ""], key) == ""
  {
    assert [h, e, p, ""][1] == e && [h, e, p, ""][2] == p;
    NoneOrEmpty([h, e, p, ""], key);
  }

  /** Lines that assign nothing, or the empty text, read as the empty text. */
  lemma {:induction false} NoneOrEmpty(lines: seq<string>, key: string)
    requires forall i :: 0 <= i < |lines| ==> !Assigns(lines[i], key) || ValueOf(lines[i], key) == ""
    ensures Lookup(lines, key) == ""
  {
    if lines == [] {
    } else {
      NoneOrEmpty(lines[1..], key);
    }
  }

  lemma DockerLinesRead(content: string, gid: string, key: string)
    requires ValidKey(key) && ValidValue(gid)
    ensures var docker := MissingDockerLines(content, gid);
      && (Mentions(docker, key) <==> !HasKey(content, key) && key == DOCKER_GID_KEY)
      && Lookup(docker, key) == if Mentions(docker, key) then gid else ""
  {
    HeaderIsNeutral(key);
    GidReads(gid, key);
    DockerBlock(DOCKER_HEADER, DOCKER_GID_KEY + "=" + gid, key);
  }

  lemma DockerBlock(h: string, line: string, key: string)
    requires !Assigns("", key) && !Assigns(h, key)
    ensures Mentions([h, line, ""], key) <==> Assigns(line, key)
    ensures Lookup([h, line, ""], key) == if Assigns(line, key) then ValueOf(line, key) else ""
  {
    var lines := [h, line, ""];
    if Assigns(line, key) {
      FirstLineDecides(lines, key, 1);
    } else {
      NothingMentioned(lines, key);
    }
  }

  /** After generation over an existing file, with a detected group id that fits on a line: what was there reads as
      before; a missing group id reads as the detected one; a missing admin key is there and empty; no other key is
      new. */
  lemma GenerateReads(content: string, gid: string, key: string)
    requires ValidKey(key) && ValidValue(gid)
    ensures HasKey(Completed(content, gid), key) <==>
      HasKey(content, key) || key == "QUANTFLOW_ADMIN_EMAIL" || key == "QUANTFLOW_ADMIN_PASSWORD" || key == "DOCKER_GID"
    ensures Value(Completed(content, gid), key) ==
      if HasKey(content, key) then Value(content, key)
      else if key == "DOCKER_GID" then gid
      else ""
  {
    CompletedReads(content, gid, key);
    AdminLinesRead(content, key);
    DockerLinesRead(content, gid, key);
    KeysDiffer();
  }

  /** The text of it: the old text, and behind it a block for missing admin keys and one for a missing group id. */
  lemma GenerateAppends(content: string, gid: string)
    ensures var email, password := !HasKey(content, ADMIN_EMAIL_KEY), !HasKey(content, ADMIN_PASSWORD_KEY);
      Completed(content, gid) == content
        + (if email && password
           then "\n" + ADMIN_HEADER + "\n" + ADMIN_EMAIL_KEY + "=\n" + ADMIN_PASSWORD_KEY + "=\n"
           else if email then "\n" + ADMIN_HEADER + "\n" + ADMIN_EMAIL_KEY + "=\n"
           else if password then "\n" + ADMIN_PASSWORD_KEY + "=\n"
           else "")
        + (if HasKey(content, DOCKER_GID_KEY) then ""
           else "\n" + DOCKER_HEADER + "\n" + (DOCKER_GID_KEY + "=" + gid) + "\n" + "")
  {
    AdminBlocks();
    BlockOfThree(DOCKER_HEADER, DOCKER_GID_KEY + "=" + gid, "");
  }

  // ---------- emails ----------

  /** A local part, an at sign, and a domain of two labels make an email. */
  lemma EmailIsAccepted(local: string, host: string, top: string)
    requires local != "" && host != "" && top != ""
    requires forall i :: 0 <= i < |local| ==> EmailLocalChar(local[i]) && local[i] != '=' && local[i] != '#'
    requires forall i :: 0 <= i < |host| ==> EmailDomainChar(host[i])
    requires forall i :: 0 <= i < |top| ==> EmailDomainChar(top[i])
    ensures ValidAdminEmail(local + "@" + (host + "." + top))
  {
    var domain := host + "." + top;
    var email := local + "@" + domain;
    assert '.' !in host && '.' !in top;
    SplitAtSep(host, top, '.');
    SplitNoSep(host, '.');
    SplitNoSep(top, '.');
    assert Split(domain, '.') == [host, top];
    assert EmailDomain(domain);
    EmailOfParts(local, domain);
  }

  lemma EmailOfParts(local: string, domain: string)
    requires local != "" && EmailDomain(domain)
    requires forall i :: 0 <= i < |local| ==> EmailLocalChar(local[i]) && local[i] != '=' && local[i] != '#'
    ensures ValidAdminEmail(local + "@" + domain)
  {
    var email := local + "@" + domain;
    assert email[|local|] == '@' && email[|local| + 1..] == domain;
    assert forall i :: 0 <= i < |local| ==> email[i] == local[i];
    forall c | c in email
      ensures c != '\r' && c != '\n' && c != '=' && c != '#'
    {
      assert c in local || c == '@' || c in domain;
      if c in local {
        LocalIsSolid(c);
      }
    }
  }

  /** Without an at sign there is no email, and an equals sign, a number sign or a newline rules one out. */
  lemma EmailIsRefused(email: string)
    requires '@' !in email || '=' in email || '#' in email || '\n' in email || '\r' in email
    ensures !ValidAdminEmail(email)
  {
  }
}
