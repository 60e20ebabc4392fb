/** LogsService: the streaming reader, the tail reader, latest mode and date-range mode, each as the loop
    the service runs, over day files that arrive in arbitrary chunks. */
module LogsService {
  import opened Results
  import opened LogLines
  import Text

  const TAIL_BYTES := 512 * 1024
  const READ_CAP := 10000

  function Max(a: nat, b: nat): nat {
    if a < b then b else a
  }

  /** The `entries` array and the `skipped` counter that the readers share. */
  class Page {
    var entries: seq<LogEntry>
    var skipped: nat

    constructor ()
      ensures entries == [] && skipped == 0
    {
      entries, skipped := [], 0;
    }
  }

  // ---------- what the readers compute ----------

  /** The lines a tail read sees: the first piece is dropped when the read starts inside the file. */
  function TailLines(content: string): seq<string> {
    if |content| <= TAIL_BYTES then Text.Split(content, '\n')
    else Text.Split(content[|content| - TAIL_BYTES..], '\n')[1..]
  }

  /** A tail read never tests for metrics. */
  function TailEntries(date: string, content: string, q: Query, r: Rules): seq<LogEntry> {
    Shown(Relevant(date, TailLines(content), q.(metrics := false), r), q, r)
  }

  /** The tail's last entries, or the first ones of the whole file when the tail is cut and has too few. */
  function NewestOfDay(date: string, content: string, q: Query, r: Rules, need: nat): seq<LogEntry> {
    var tail := LastN(TailEntries(date, content, q, r), need);
    if |content| > TAIL_BYTES && |tail| < need then Take(DayEntries(date, content, q, r), Max(need, READ_CAP)) else tail
  }

  /** One day as latest mode sees it. */
  function DayView(date: string, content: string, q: Query, r: Rules): seq<LogEntry> {
    var need := q.offset + q.limit + 1;
    var q0 := q.(offset := 0);
    LastN(DayRead(date, content, q.metrics, q0, r, need), need)
  }

  lemma ViewOfRead(date: string, content: string, q: Query, r: Rules, read: seq<LogEntry>)
    requires read == DayRead(date, content, q.metrics, q.(offset := 0), r, q.offset + q.limit + 1)
    ensures DayView(date, content, q, r) == LastN(read, q.offset + q.limit + 1)
  {
  }

  /** What is read of a day before it is trimmed. */
  function DayRead(date: string, content: string, metrics: bool, q: Query, r: Rules, need: nat): seq<LogEntry> {
    if metrics then DayEntries(date, content, q, r) else NewestOfDay(date, content, q, r, need)
  }

  function Views(dates: seq<string>, files: map<string, seq<string>>, q: Query, r: Rules): seq<seq<LogEntry>> {
    seq(|dates|, i requires 0 <= i < |dates| => DayView(dates[i], Content(files, dates[i]), q, r))
  }

  /** Days newest first, each put in front of the newer ones, until more than `enough` entries are there. */
  function Collect(views: seq<seq<LogEntry>>, enough: nat, newer: seq<LogEntry>): seq<LogEntry>
    decreases views
  {
    if views == [] || |newer| > enough then newer else Collect(views[1..], enough, views[0] + newer)
  }

  /** The entries latest mode collects, oldest first. */
  function Collected(dates: seq<string>, files: map<string, seq<string>>, q: Query, r: Rules): seq<LogEntry> {
    Collect(Views(dates, files, q, r), q.offset + q.limit, [])
  }

  function Content(files: map<string, seq<string>>, date: string): string {
    if date in files then Concat(files[date]) else ""
  }

  /** Newest first, skip the offset, at most `limit`. */
  function NewestPage(chronological: seq<LogEntry>, offset: nat, limit: nat): seq<LogEntry> {
    Take(Drop(Reverse(chronological), offset), limit)
  }

  /** Oldest first, skip the offset, at most `limit`. */
  function OldestPage(chronological: seq<LogEntry>, offset: nat, limit: nat): seq<LogEntry> {
    Take(Drop(chronological, offset), limit)
  }

  /** All counted lines of the days, in the order given. */
  function RangeLines(dates: seq<string>, files: map<string, seq<string>>, q: Query, r: Rules): seq<Dated> {
    if dates == [] then []
    else DayLines(dates[0], Content(files, dates[0]), q, r) + RangeLines(dates[1..], files, q, r)
  }

  datatype LogsPage = LogsPage(entries: seq<LogEntry>, hasMore: bool)

  datatype LogsError = InvalidDates

  /** What date and date-range mode return for a valid list of days, oldest first. */
  function RangeEntries(dates: seq<string>, files: map<string, seq<string>>, q: Query, r: Rules, asc: bool)
    : seq<LogEntry>
    requires dates != []
  {
    var lines := RangeLines(dates, files, q, r);
    if |dates| == 1 && !q.metrics && q.window.None? then
      var tail := TailEntries(dates[0], Content(files, dates[0]), q, r);
      var kept := LastN(tail, q.limit);
      if asc then Reverse(kept) else kept
    else if !asc && !q.metrics then
      NewestPage(Take(Shown(lines, q, r), Max(q.offset + q.limit, READ_CAP)), q.offset, q.limit)
    else
      var shown := Shown(Drop(lines, q.offset), q, r);
      var kept := if q.metrics then shown else Take(shown, q.limit);
      if asc then kept else Reverse(kept)
  }

  // ---------- the shared page over several days ----------

  /** One more day in front of the newer ones. */
  lemma CollectStep(views: seq<seq<LogEntry>>, i: nat, enough: nat, newer: seq<LogEntry>)
    requires i < |views| && |newer| <= enough
    ensures var next := views[i] + newer;
      Collect(views[i..], enough, newer) == if |next| > enough then next else Collect(views[i + 1..], enough, next)
  {
    assert views[i..][1..] == views[i + 1..];
  }

  /** Reading two runs of lines one after the other is reading them in one go. */
  lemma {:induction false} OnePassAppend(entries: seq<LogEntry>, skipped: nat, a: seq<Dated>, b: seq<Dated>, q: Query,
                                         r: Rules)
    requires q.metrics || |entries| <= q.limit
    ensures var mid := OnePass(entries, skipped, a, q, r);
            OnePass(entries, skipped, a + b, q, r) == OnePass(mid.0, mid.1, b, q, r)
    decreases a
  {
    if a == [] {
      assert a + b == b;
      OnePassOfNone(entries, skipped, q, r);
    } else if !q.metrics && |entries| == q.limit && skipped >= q.offset {
      OnePassFullAppend(entries, skipped, a, b, q, r);
    } else {
      var next := Ahead(entries, skipped, a[0], q, r);
      OnePassAhead(entries, skipped, a, q, r);
      OnePassAhead(entries, skipped, a + b, q, r);
      TailOfSum(a, b);
      OnePassAppend(next.0, next.1, a[1..], b, q, r);
    }
  }

  lemma OnePassOfNone(entries: seq<LogEntry>, skipped: nat, q: Query, r: Rules)
    requires q.metrics || |entries| <= q.limit
    ensures OnePass(entries, skipped, [], q, r) == (entries, skipped)
  {
    assert entries + [] == entries;
  }

  lemma OnePassFullAppend(entries: seq<LogEntry>, skipped: nat, a: seq<Dated>, b: seq<Dated>, q: Query, r: Rules)
    requires !q.metrics && |entries| == q.limit && skipped >= q.offset
    ensures var mid := OnePass(entries, skipped, a, q, r);
            OnePass(entries, skipped, a + b, q, r) == OnePass(mid.0, mid.1, b, q, r)
  {
    OnePassFull(entries, skipped, a, q, r);
    OnePassFull(entries, skipped, a + b, q, r);
    OnePassFull(entries, skipped, b, q, r);
  }

  /** The page and the skip count behind one line, when the page is not full. */
  function Ahead(entries: seq<LogEntry>, skipped: nat, d: Dated, q: Query, r: Rules): (seq<LogEntry>, nat) {
    var e := r.normalize(d.line, d.date);
    if skipped < q.offset then (entries, skipped + 1)
    else (if InWindow(e, q, r) then entries + [e] else entries, skipped)
  }

  lemma OnePassAhead(entries: seq<LogEntry>, skipped: nat, lines: seq<Dated>, q: Query, r: Rules)
    requires lines != []
    ensures var next := Ahead(entries, skipped, lines[0], q, r);
            OnePass(entries, skipped, lines, q, r) == OnePass(next.0, next.1, lines[1..], q, r)
  {
    assert lines == [lines[0]] + lines[1..];
    OnePassCons(entries, skipped, lines[0], lines[1..], q, r);
  }

  lemma {:induction false} RangeLinesAppend(a: seq<string>, b: seq<string>, files: map<string, seq<string>>, q: Query,
                                            r: Rules)
    ensures RangeLines(a + b, files, q, r) == RangeLines(a, files, q, r) + RangeLines(b, files, q, r)
  {
    if a == [] {
      assert a + b == b;
    } else {
      var day := DayLines(a[0], Content(files, a[0]), q, r);
      var rest, more := RangeLines(a[1..], files, q, r), RangeLines(b, files, q, r);
      RangeLinesAppend(a[1..], b, files, q, r);
      TailOfSum(a, b);
      Regroup(day, rest, more);
    }
  }

  lemma OneDayRange(date: string, files: map<string, seq<string>>, q: Query, r: Rules)
    ensures RangeLines([date], files, q, r) == DayLines(date, Content(files, date), q, r)
  {
    assert [date][1..] == [];
    assert RangeLines([], files, q, r) == [];
  }

  /** A full page does not change when more days follow. */
  lemma FullPageStays(a: seq<Dated>, b: seq<Dated>, q: Query, r: Rules)
    requires !q.metrics && q.limit >= 1 && |OnePass([], 0, a, q, r).0| >= q.limit
    ensures OnePass([], 0, a + b, q, r).0 == OnePass([], 0, a, q, r).0
  {
    OnePassAppend([], 0, a, b, q, r);
    var mid := OnePass([], 0, a, q, r);
    OnePassFull(mid.0, mid.1, b, q, r);
  }

  /** Streaming one more day onto the shared page. */
  lemma RangeStep(dates: seq<string>, i: nat, files: map<string, seq<string>>, q: Query, r: Rules)
    requires i < |dates|
    requires q.metrics || |OnePass([], 0, RangeLines(dates[..i], files, q, r), q, r).0| < q.limit
    ensures var page := OnePass([], 0, RangeLines(dates[..i], files, q, r), q, r);
            var t := ReadFile(Reading(page.0, page.1, false), dates[i], Content(files, dates[i]), q, r);
            (t.entries, t.skipped) == OnePass([], 0, RangeLines(dates[..i + 1], files, q, r), q, r)
  {
    RangeLinesSnoc(dates, i, files, q, r);
    DayStep(RangeLines(dates[..i], files, q, r), dates[i], Content(files, dates[i]), q, r);
  }

  lemma RangeLinesSnoc(dates: seq<string>, i: nat, files: map<string, seq<string>>, q: Query, r: Rules)
    requires i < |dates|
    ensures RangeLines(dates[..i + 1], files, q, r)
         == RangeLines(dates[..i], files, q, r) + DayLines(dates[i], Content(files, dates[i]), q, r)
  {
    RangeLinesAppend(dates[..i], [dates[i]], files, q, r);
    OneDayRange(dates[i], files, q, r);
    assert dates[..i] + [dates[i]] == dates[..i + 1];
  }

  /** Streaming one more file onto the page of the lines before. */
  lemma DayStep(before: seq<Dated>, date: string, content: string, q: Query, r: Rules)
    requires q.metrics || |OnePass([], 0, before, q, r).0| < q.limit
    ensures var page := OnePass([], 0, before, q, r);
            var t := ReadFile(Reading(page.0, page.1, false), date, content, q, r);
            (t.entries, t.skipped) == OnePass([], 0, before + DayLines(date, content, q, r), q, r)
  {
    var page := OnePass([], 0, before, q, r);
    ReadFileOnePass(Reading(page.0, page.1, false), date, content, q, r);
    OnePassAppend([], 0, before, DayLines(date, content, q, r), q, r);
  }

  /** Days behind a full page are not needed. */
  lemma FullRange(dates: seq<string>, n: nat, files: map<string, seq<string>>, q: Query, r: Rules)
    requires n <= |dates| && !q.metrics && q.limit >= 1
    requires |OnePass([], 0, RangeLines(dates[..n], files, q, r), q, r).0| >= q.limit
    ensures OnePass([], 0, RangeLines(dates, files, q, r), q, r).0
         == OnePass([], 0, RangeLines(dates[..n], files, q, r), q, r).0
  {
    assert dates[..n] + dates[n..] == dates;
    FullFront(dates[..n], dates[n..], files, q, r);
  }

  lemma FullFront(front: seq<string>, back: seq<string>, files: map<string, seq<string>>, q: Query, r: Rules)
    requires !q.metrics && q.limit >= 1
    requires |OnePass([], 0, RangeLines(front, files, q, r), q, r).0| >= q.limit
    ensures OnePass([], 0, RangeLines(front + back, files, q, r), q, r).0
         == OnePass([], 0, RangeLines(front, files, q, r), q, r).0
  {
    RangeLinesAppend(front, back, files, q, r);
    FullPageStays(RangeLines(front, files, q, r), RangeLines(back, files, q, r), q, r);
  }

  /** Limit and offset play no part in which lines count and which entries are shown. */
  lemma {:induction false} SameLines(date: string, lines: seq<string>, q: Query, q2: Query, r: Rules)
    requires q2.metrics == q.metrics && q2.window == q.window
    ensures Relevant(date, lines, q2, r) == Relevant(date, lines, q, r)
  {
    if lines == [] {
    } else {
      SameLines(date, lines[1..], q, q2, r);
    }
  }

  lemma {:induction false} SameShown(lines: seq<Dated>, q: Query, q2: Query, r: Rules)
    requires q2.window == q.window
    ensures Shown(lines, q2, r) == Shown(lines, q, r)
  {
    if lines == [] {
    } else {
      SameShown(lines[1..], q, q2, r);
    }
  }

  lemma SameDay(date: string, content: string, q: Query, q2: Query, r: Rules)
    requires q2.metrics == q.metrics && q2.window == q.window
    ensures DayEntries(date, content, q2, r) == DayEntries(date, content, q, r)
    ensures TailEntries(date, content, q2, r) == TailEntries(date, content, q, r)
  {
    SameLines(date, Text.Split(content, '\n'), q, q2, r);
    SameShown(DayLines(date, content, q, r), q, q2, r);
    SameLines(date, TailLines(content), q.(metrics := false), q2.(metrics := false), r);
    SameShown(Relevant(date, TailLines(content), q.(metrics := false), r), q, q2, r);
  }

  lemma {:induction false} SameRange(dates: seq<string>, files: map<string, seq<string>>, q: Query, q2: Query, r: Rules)
    requires q2.metrics == q.metrics && q2.window == q.window
    ensures RangeLines(dates, files, q2, r) == RangeLines(dates, files, q, r)
  {
    if dates == [] {
    } else {
      SameRange(dates[1..], files, q, q2, r);
      SameLines(dates[0], Text.Split(Content(files, dates[0]), '\n'), q, q2, r);
    }
  }

  /** A fresh page that skips nothing: the day's entries up to the limit. */
  lemma FreshDay(date: string, content: string, q: Query, r: Rules)
    requires q.offset == 0 && (q.metrics || q.limit >= 1)
    ensures ReadFile(Reading([], 0, false), date, content, q, r).entries
         == if q.metrics then DayEntries(date, content, q, r) else Take(DayEntries(date, content, q, r), q.limit)
  {
    ReadFileOnePass(Reading([], 0, false), date, content, q, r);
    var lines := DayLines(date, content, q, r);
    assert lines[0..] == lines;
    assert [] + Shown(lines, q, r) == Shown(lines, q, r);
  }

  // ---------- facts about pieces ----------

  /** Complete lines stay complete when more text arrives. */
  lemma PrefixPieces(a: string, b: string)
    ensures var p, w := Text.Split(a, '\n'), Text.Split(a + b, '\n');
            |p| <= |w| && p[..|p| - 1] == w[..|p| - 1]
  {
    Text.SplitConcat(a, b, '\n');
  }

  /** One more chunk: the leftover and the chunk split like the text so far and the chunk. */
  lemma ChunkPieces(before: string, done: seq<string>, leftover: string, chunk: string)
    requires Text.Split(before, '\n') == done + [leftover]
    ensures Text.Split(before + chunk, '\n') == done + Text.Split(leftover + chunk, '\n')
  {
    Text.PiecesHaveNoSep(before, '\n');
    assert Text.Split(before, '\n')[|done|] == leftover;
    Text.SplitNoSep(leftover, '\n');
    Text.SplitConcat(before, chunk, '\n');
    Text.SplitConcat(leftover, chunk, '\n');
  }

  /** Once the reader has stopped inside the complete lines, the rest of the file is not read. */
  lemma StopsEarly(s: Reading, date: string, content: string, read: seq<string>, q: Query, r: Rules)
    requires var pieces := Text.Split(content, '\n'); |read| < |pieces| && read == pieces[..|read|]
    requires ReadLines(s, date, read, q, r).stopped
    ensures ReadFile(s, date, content, q, r) == ReadLines(s, date, read, q, r)
  {
    var pieces := Text.Split(content, '\n');
    var init := pieces[..|pieces| - 1];
    var rest := init[|read|..];
    assert init == read + rest;
    ReadLinesAppend(s, date, read, rest, q, r);
    StoppedStays(ReadLines(s, date, read, q, r), date, rest, q, r);
  }

  lemma NextChunk(chunks: seq<string>, c: nat, done: seq<string>, leftover: string)
    requires c < |chunks| && Text.Split(Concat(chunks[..c]), '\n') == done + [leftover]
    ensures var pieces := Text.Split(leftover + chunks[c], '\n');
            Text.Split(Concat(chunks[..c + 1]), '\n') == (done + pieces[..|pieces| - 1]) + [pieces[|pieces| - 1]]
  {
    assert chunks[..c] + [chunks[c]] == chunks[..c + 1];
    ConcatSnoc(chunks[..c], chunks[c]);
    ChunkPieces(Concat(chunks[..c]), done, leftover, chunks[c]);
    LastPiece(done, Text.Split(leftover + chunks[c], '\n'));
  }

  lemma LastPiece(done: seq<string>, pieces: seq<string>)
    requires pieces != []
    ensures done + pieces == (done + pieces[..|pieces| - 1]) + [pieces[|pieces| - 1]]
  {
  }

  lemma StopsAtChunk(s: Reading, date: string, chunks: seq<string>, n: nat, done: seq<string>, leftover: string,
                     q: Query, r: Rules)
    requires n <= |chunks| && Text.Split(Concat(chunks[..n]), '\n') == done + [leftover]
    requires ReadLines(s, date, done, q, r).stopped
    ensures ReadFile(s, date, Concat(chunks), q, r) == ReadLines(s, date, done, q, r)
  {
    ConcatSplit(chunks, n);
    PrefixPieces(Concat(chunks[..n]), Concat(chunks[n..]));
    assert done == (done + [leftover])[..|done|];
    StopsEarly(s, date, Concat(chunks), done, q, r);
  }

  lemma WholeFile(s: Reading, date: string, content: string, done: seq<string>, leftover: string, q: Query, r: Rules)
    requires Text.Split(content, '\n') == done + [leftover]
    ensures ReadFile(s, date, content, q, r) == ReadLeftover(ReadLines(s, date, done, q, r), date, leftover, q, r)
  {
    assert (done + [leftover])[..|done|] == done;
  }

  lemma MissingFile(s: Reading, date: string, q: Query, r: Rules)
    ensures ReadFile(s, date, "", q, r) == s
  {
    assert Text.Split("", '\n') == [] + [""];
    WholeFile(s, date, "", [], "", q, r);
    assert BlankLine("");
  }

  lemma ReadLinesSnoc(s: Reading, date: string, lines: seq<string>, line: string, q: Query, r: Rules)
    ensures ReadLines(s, date, lines + [line], q, r) == ReadLine(ReadLines(s, date, lines, q, r), date, line, q, r)
  {
    ReadLinesAppend(s, date, lines, [line], q, r);
    var t := ReadLines(s, date, lines, q, r);
    assert ReadLines(t, date, [line], q, r) == ReadLine(t, date, line, q, r);
  }

  class LogsService {
    const rules: Rules
    /** The chunks in which the object store will deliver each day file; absent means not found. */
    const files: map<string, seq<string>>

    constructor (rules: Rules, files: map<string, seq<string>>)
      ensures this.rules == rules && this.files == files
    {
      this.rules, this.files := rules, files;
    }

    /** The loop over the complete lines of one chunk; true when the limit is reached. */
    method ReadCompleteLines(date: string, lines: seq<string>, q: Query, page: Page) returns (stopped: bool)
      modifies page
      ensures Reading(page.entries, page.skipped, stopped)
           == ReadLines(Reading(old(page.entries), old(page.skipped), false), date, lines, q, rules)
    {
      ghost var start := Reading(page.entries, page.skipped, false);
      for k := 0 to |lines|
        invariant ReadLines(start, date, lines[..k], q, rules) == Reading(page.entries, page.skipped, false)
      {
        var line := lines[k];
        ReadLinesSnoc(start, date, lines[..k], line, q, rules);
        assert lines[..k] + [line] == lines[..k + 1];
        if !Counts(line, q, rules) {
          continue;
        }
        if page.skipped < q.offset {
          page.skipped := page.skipped + 1;
          continue;
        }
        var normalized := rules.normalize(line, date);
        if !InWindow(normalized, q, rules) {
          continue;
        }
        page.entries := page.entries + [normalized];
        if !q.metrics && |page.entries| >= q.limit {
          assert lines == lines[..k + 1] + lines[k + 1..];
          ReadLinesAppend(start, date, lines[..k + 1], lines[k + 1..], q, rules);
          StoppedStays(Reading(page.entries, page.skipped, true), date, lines[k + 1..], q, rules);
          return true;
        }
      }
      assert lines[..|lines|] == lines;
      return false;
    }

    /** Appends the file's entries to the page, chunk by chunk, and stops at the limit. */
    method StreamFiltered(date: string, q: Query, page: Page)
      modifies page
      ensures var before := Reading(old(page.entries), old(page.skipped), false);
              var t := ReadFile(before, date, Content(files, date), q, rules);
              page.entries == t.entries && page.skipped == t.skipped
    {
      if date !in files {
        MissingFile(Reading(page.entries, page.skipped, false), date, q, rules);
        return;
      }
      var chunks := files[date];
      ghost var start := Reading(page.entries, page.skipped, false);
      ghost var done: seq<string> := [];
      var leftover := "";
      for c := 0 to |chunks|
        invariant Text.Split(Concat(chunks[..c]), '\n') == done + [leftover]
        invariant ReadLines(start, date, done, q, rules) == Reading(page.entries, page.skipped, false)
      {
        NextChunk(chunks, c, done, leftover);
        var pieces := Text.Split(leftover + chunks[c], '\n');
        leftover := pieces[|pieces| - 1];
        var lines := pieces[..|pieces| - 1];
        ReadLinesAppend(start, date, done, lines, q, rules);
        var stopped := ReadCompleteLines(date, lines, q, page);
        done := done + lines;
        if stopped {
          StopsAtChunk(start, date, chunks, c + 1, done, leftover, q, rules);
          return;
        }
      }
      assert chunks[..|chunks|] == chunks;
      WholeFile(start, date, Concat(chunks), done, leftover, q, rules);
      if Counts(leftover, q, rules) {
        if page.skipped < q.offset {
          page.skipped := page.skipped + 1;
        } else if q.metrics || |page.entries| < q.limit {
          var normalized := rules.normalize(leftover, date);
          if InWindow(normalized, q, rules) {
            page.entries := page.entries + [normalized];
          }
        }
      }
    }

    /** Reads at most the last TAIL_BYTES and keeps the last `limit` entries; true when cut. */
    method TailFiltered(date: string, q: Query, page: Page) returns (truncated: bool)
      modifies page
      ensures truncated <==> |Content(files, date)| > TAIL_BYTES
      ensures var all := old(page.entries) + TailEntries(date, Content(files, date), q, rules);
              page.entries == if date !in files || q.metrics then all else LastN(all, q.limit)
      ensures page.skipped == old(page.skipped)
    {
      if date !in files {
        EmptyTail(date, q, rules);
        assert page.entries + [] == page.entries;
        return false;
      }
      var lines;
      lines, truncated := ReadTailLines(Concat(files[date]));
      AppendTail(date, lines, q, page);
      if !q.metrics {
        page.entries := Clipped(page.entries, q.limit);
      }
    }

    /** The pieces of the last TAIL_BYTES, without the first one when the read starts inside the file. */
    method ReadTailLines(stored: string) returns (lines: seq<string>, truncated: bool)
      ensures lines == TailLines(stored) && (truncated <==> |stored| > TAIL_BYTES)
    {
      var start := if |stored| > TAIL_BYTES then |stored| - TAIL_BYTES else 0;
      var content := if start > 0 then stored[start..] else stored;
      lines := Text.Split(content, '\n');
      if start > 0 {
        lines := lines[1..];
      }
      return lines, start > 0;
    }

    /** One line of the tail. */
    method AppendLine(date: string, line: string, q: Query, page: Page)
      modifies page
      ensures var e := rules.normalize(line, date);
              page.entries == old(page.entries) + if !BlankLine(line) && InWindow(e, q, rules) then [e] else []
      ensures page.skipped == old(page.skipped)
    {
      if BlankLine(line) {
        return;
      }
      var normalized := rules.normalize(line, date);
      if !InWindow(normalized, q, rules) {
        return;
      }
      page.entries := page.entries + [normalized];
    }

    /** The tail reader's loop. */
    method AppendTail(date: string, lines: seq<string>, q: Query, page: Page)
      modifies page
      ensures page.entries == old(page.entries) + Shown(Relevant(date, lines, q.(metrics := false), rules), q, rules)
      ensures page.skipped == old(page.skipped)
    {
      ghost var q0 := q.(metrics := false);
      ghost var before := page.entries;
      assert before + [] == before;
      for k := 0 to |lines|
        invariant page.entries == before + Shown(Relevant(date, lines[..k], q0, rules), q, rules)
        invariant page.skipped == old(page.skipped)
      {
        TailStep(date, lines, k, q, rules);
        ghost var e := rules.normalize(lines[k], date);
        Regroup(before, Shown(Relevant(date, lines[..k], q0, rules), q, rules),
                if !BlankLine(lines[k]) && InWindow(e, q, rules) then [e] else []);
        AppendLine(date, lines[k], q, page);
      }
      assert lines[..|lines|] == lines;
    }

    /** Streams one day into a page of its own. */
    method ReadWhole(date: string, q: Query) returns (page: Page)
      requires q.offset == 0 && (q.metrics || q.limit >= 1)
      ensures fresh(page)
      ensures var day := DayEntries(date, Content(files, date), q, rules);
              page.entries == if q.metrics then day else Take(day, q.limit)
    {
      page := new Page();
      StreamFiltered(date, q, page);
      FreshDay(date, Content(files, date), q, rules);
    }

    /** Reads one day's tail into a page of its own. */
    method ReadTail(date: string, q: Query, need: nat) returns (page: Page, truncated: bool)
      requires !q.metrics
      ensures fresh(page)
      ensures truncated <==> |Content(files, date)| > TAIL_BYTES
      ensures page.entries == LastN(TailEntries(date, Content(files, date), q.(offset := 0), rules), need)
    {
      page := new Page();
      truncated := TailFiltered(date, q.(offset := 0, limit := need), page);
      TailOfDay(date, q, need);
    }

    /** The tail, or the whole file when the tail is cut and has too few entries. */
    method ReadNewest(date: string, q: Query, need: nat) returns (page: Page)
      requires !q.metrics && need >= 1
      ensures fresh(page)
      ensures page.entries == NewestOfDay(date, Content(files, date), q.(offset := 0), rules, need)
    {
      var truncated;
      page, truncated := ReadTail(date, q, need);
      if truncated && |page.entries| < need {
        page := ReadWhole(date, q.(offset := 0, limit := Max(need, READ_CAP)));
        SameDay(date, Content(files, date), q.(offset := 0), q.(offset := 0, limit := Max(need, READ_CAP)), rules);
      }
    }

    /** One day of latest mode. */
    method ReadDay(date: string, q: Query) returns (day: seq<LogEntry>)
      ensures day == DayView(date, Content(files, date), q, rules)
    {
      var read := ReadUncut(date, q);
      day := Clipped(read, q.offset + q.limit + 1);
    }

    method ReadUncut(date: string, q: Query) returns (read: seq<LogEntry>)
      ensures LastN(read, q.offset + q.limit + 1) == DayView(date, Content(files, date), q, rules)
    {
      read := ReadEntries(date, q, q.offset + q.limit + 1);
      ViewOfRead(date, Content(files, date), q, rules, read);
    }

    /** Metrics are streamed, raw logs are tailed. */
    method ReadEntries(date: string, q: Query, need: nat) returns (entries: seq<LogEntry>)
      requires need >= 1
      ensures entries == DayRead(date, Content(files, date), q.metrics, q.(offset := 0), rules, need)
    {
      var page;
      if q.metrics {
        page := ReadWhole(date, q.(offset := 0));
      } else {
        page := ReadNewest(date, q, need);
      }
      return page.entries;
    }

    /** Only the last `need` entries. */
    method Clipped(entries: seq<LogEntry>, need: nat) returns (kept: seq<LogEntry>)
      ensures kept == LastN(entries, need)
    {
      kept := entries;
      if |kept| > need {
        kept := kept[|kept| - need..];
      }
    }

    lemma TailOfDay(date: string, q: Query, need: nat)
      ensures var tail := TailEntries(date, Content(files, date), q.(offset := 0, limit := need), rules);
              && tail == TailEntries(date, Content(files, date), q.(offset := 0), rules)
              && [] + tail == tail
              && (date !in files ==> tail == [])
    {
      SameDay(date, Content(files, date), q.(offset := 0), q.(offset := 0, limit := need), rules);
      if date !in files {
        EmptyTail(date, q.(offset := 0), rules);
      }
    }

    method CollectDays(dates: seq<string>, q: Query) returns (collected: seq<LogEntry>)
      ensures collected == Collected(dates, files, q, rules)
    {
      ghost var views := TheViews(dates, q);
      collected := CollectViews(dates, q, views);
    }

    lemma TheViews(dates: seq<string>, q: Query) returns (views: seq<seq<LogEntry>>)
      ensures AreViews(views, dates, q)
      ensures Collected(dates, files, q, rules) == Collect(views, q.offset + q.limit, [])
    {
      views := Views(dates, files, q, rules);
    }

    ghost predicate AreViews(views: seq<seq<LogEntry>>, dates: seq<string>, q: Query) {
      |views| == |dates| &&
      forall i {:trigger DayView(dates[i], Content(files, dates[i]), q, rules)} :: 0 <= i < |dates| ==>
        views[i] == DayView(dates[i], Content(files, dates[i]), q, rules)
    }

    method ReadView(dates: seq<string>, i: nat, q: Query, ghost views: seq<seq<LogEntry>>) returns (day: seq<LogEntry>)
      requires AreViews(views, dates, q) && i < |dates|
      ensures day == views[i]
    {
      day := ReadDay(dates[i], q);
    }

    /** The loop over the days, given what it will see of each. */
    method CollectViews(dates: seq<string>, q: Query, ghost views: seq<seq<LogEntry>>)
      returns (collected: seq<LogEntry>)
      requires AreViews(views, dates, q)
      ensures collected == Collect(views, q.offset + q.limit, [])
    {
      var need := q.offset + q.limit + 1;
      collected := [];
      assert views[0..] == views;
      for i := 0 to |dates|
        invariant Collect(views, need - 1, []) == Collect(views[i..], need - 1, collected)
        invariant |collected| < need
      {
        var day := ReadView(dates, i, q, views);
        CollectStep(views, i, need - 1, collected);
        collected := day + collected;
        if |collected| >= need {
          return;
        }
      }
    }

    /** Latest mode over the days of the lookback, newest first. */
    method GetLatestLogs(dates: seq<string>, q: Query, asc: bool) returns (page: LogsPage)
      ensures var collected := Collected(dates, files, q, rules);
              var newest := NewestPage(collected, q.offset, q.limit);
              page == LogsPage(if asc then Reverse(newest) else newest, |collected| > q.offset + q.limit)
    {
      var collected := CollectDays(dates, q);
      var newestFirst := Reverse(collected);
      var afterOffset := if q.offset <= |newestFirst| then newestFirst[q.offset..] else [];
      var hasMore := |afterOffset| > q.limit;
      var entries := if q.limit <= |afterOffset| then afterOffset[..q.limit] else afterOffset;
      if asc {
        entries := Reverse(entries);
      }
      return LogsPage(entries, hasMore);
    }

    /** One round of the loop over the days of a range. */
    method StreamOneMore(dates: seq<string>, i: nat, q: Query, page: Page)
      requires i < |dates| && (q.metrics || |page.entries| < q.limit)
      requires (page.entries, page.skipped) == OnePass([], 0, RangeLines(dates[..i], files, q, rules), q, rules)
      modifies page
      ensures (page.entries, page.skipped) == OnePass([], 0, RangeLines(dates[..i + 1], files, q, rules), q, rules)
    {
      RangeStep(dates, i, files, q, rules);
      StreamFiltered(dates[i], q, page);
    }

    /** The loop over the days of a range, with one shared page. */
    method StreamRange(dates: seq<string>, q: Query) returns (entries: seq<LogEntry>)
      requires q.metrics || q.limit >= 1
      ensures entries == OnePass([], 0, RangeLines(dates, files, q, rules), q, rules).0
    {
      var page := new Page();
      FromStart([], q, rules);
      for i := 0 to |dates|
        invariant (page.entries, page.skipped) == OnePass([], 0, RangeLines(dates[..i], files, q, rules), q, rules)
        invariant q.metrics || |page.entries| < q.limit
      {
        StreamOneMore(dates, i, q, page);
        if !q.metrics && |page.entries| >= q.limit {
          FullRange(dates, i + 1, files, q, rules);
          return page.entries;
        }
      }
      assert dates[..|dates|] == dates;
      return page.entries;
    }

    /** Date and date-range mode; the days are what parseDateQuery made of the query. */
    method GetLogs(dates: seq<string>, q: Query, asc: bool) returns (result: Result<LogsPage, LogsError>)
      requires q.limit >= 1
      ensures dates == [] ==> result == Err(InvalidDates)
      ensures dates != [] ==>
        var entries := RangeEntries(dates, files, q, rules, asc);
        result == Ok(LogsPage(entries, !q.metrics && |entries| >= q.limit))
    {
      if dates == [] {
        return Err(InvalidDates);
      }
      var entries: seq<LogEntry>;
      if |dates| == 1 && !q.metrics && q.window.None? {
        entries := GetSingleDay(dates[0], q);
        if asc {
          entries := Reverse(entries);
        }
      } else if !asc && !q.metrics {
        entries := GetNewestOfRange(dates, q);
      } else {
        entries := StreamRange(dates, q);
        FromStart(RangeLines(dates, files, q, rules), q, rules);
        if !asc {
          entries := Reverse(entries);
        }
      }
      return Ok(LogsPage(entries, !q.metrics && |entries| >= q.limit));
    }

    method GetSingleDay(date: string, q: Query) returns (entries: seq<LogEntry>)
      requires !q.metrics
      ensures entries == LastN(TailEntries(date, Content(files, date), q, rules), q.limit)
    {
      var page := new Page();
      var _ := TailFiltered(date, q, page);
      ghost var tail := TailEntries(date, Content(files, date), q, rules);
      assert [] + tail == tail;
      if date !in files {
        EmptyTail(date, q, rules);
      }
      return page.entries;
    }

    /** The descending range: a capped chronological read, reversed, then offset and limit. */
    method GetNewestOfRange(dates: seq<string>, q: Query) returns (entries: seq<LogEntry>)
      requires !q.metrics && q.limit >= 1
      ensures entries == NewestPage(
        Take(Shown(RangeLines(dates, files, q, rules), q, rules), Max(q.offset + q.limit, READ_CAP)), q.offset, q.limit)
    {
      var maxRead := Max(q.offset + q.limit, READ_CAP);
      var read := StreamRange(dates, q.(offset := 0, limit := maxRead));
      CappedRange(dates, files, q, maxRead, rules);
      entries := CutNewest(read, q.offset, q.limit);
    }

    /** Reverse, splice off the offset, cut at the limit. */
    method CutNewest(read: seq<LogEntry>, offset: nat, limit: nat) returns (entries: seq<LogEntry>)
      ensures entries == NewestPage(read, offset, limit)
    {
      entries := Reverse(read);
      entries := if offset <= |entries| then entries[offset..] else [];
      if |entries| > limit {
        entries := entries[..limit];
      }
    }
  }

  /** A capped read from the start gives the first entries. */
  lemma CappedRange(dates: seq<string>, files: map<string, seq<string>>, q: Query, cap: nat, r: Rules)
    requires !q.metrics
    ensures var capped := q.(offset := 0, limit := cap);
            (OnePass([], 0, RangeLines(dates, files, capped, r), capped, r).0
             == Take(Shown(RangeLines(dates, files, q, r), q, r), cap))
  {
    var capped := q.(offset := 0, limit := cap);
    SameRange(dates, files, q, capped, r);
    CappedLines(RangeLines(dates, files, q, r), q, cap, r);
  }

  lemma CappedLines(lines: seq<Dated>, q: Query, cap: nat, r: Rules)
    requires !q.metrics
    ensures OnePass([], 0, lines, q.(offset := 0, limit := cap), r).0 == Take(Shown(lines, q, r), cap)
  {
    var capped := q.(offset := 0, limit := cap);
    FromStart(lines, capped, r);
    SameShown(lines, q, capped, r);
    assert Drop(lines, 0) == lines;
  }

  /** A fresh page: skip the offset, show, cut. */
  lemma FromStart(lines: seq<Dated>, q: Query, r: Rules)
    ensures var shown := Shown(Drop(lines, q.offset), q, r);
            OnePass([], 0, lines, q, r).0 == if q.metrics then shown else Take(shown, q.limit)
  {
    var shown := Shown(Drop(lines, q.offset), q, r);
    assert [] + shown == shown;
    assert lines[|lines|..] == [] && lines[0..] == lines;
  }

  lemma EmptyTail(date: string, q: Query, r: Rules)
    ensures TailEntries(date, "", q, r) == []
  {
    assert TailLines("") == [""];
    assert BlankLine("");
    assert [""][1..] == [];
  }

  lemma {:induction false} ConcatSplit(chunks: seq<string>, n: nat)
    requires n <= |chunks|
    ensures Concat(chunks) == Concat(chunks[..n]) + Concat(chunks[n..])
    decreases n
  {
    if n == 0 {
      assert chunks[0..] == chunks;
    } else {
      ConcatSplit(chunks[1..], n - 1);
      assert chunks[1..][..n - 1] == chunks[..n][1..];
      assert chunks[1..][n - 1..] == chunks[n..];
    }
  }

  lemma TailStep(date: string, lines: seq<string>, k: nat, q: Query, r: Rules)
    requires k < |lines|
    ensures var q0, e := q.(metrics := false), r.normalize(lines[k], date);
            (Shown(Relevant(date, lines[..k + 1], q0, r), q, r)
             == Shown(Relevant(date, lines[..k], q0, r), q, r)
              + (if !BlankLine(lines[k]) && InWindow(e, q, r) then [e] else []))
  {
    var q0 := q.(metrics := false);
    assert lines[..k + 1] == lines[..k] + [lines[k]];
    RelevantAppend(date, lines[..k], [lines[k]], q0, r);
    ShownAppend(Relevant(date, lines[..k], q0, r), Relevant(date, [lines[k]], q0, r), q, r);
    assert Relevant(date, [lines[k]], q0, r) == if BlankLine(lines[k]) then [] else [Dated(date, lines[k])];
  }
}
