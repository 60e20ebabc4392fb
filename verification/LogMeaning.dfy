/** What the entries of a query mean, said line by line: which lines give an entry, in which order they come, and that
    every page is made of such entries only. */
module LogMeaning {
  import opened LogLines
  import opened LogsService
  import opened LogPaging
  import opened Results
  import Text

  // ---------- one day ----------

  /** The line has text, is a metric line when metrics are asked for, and its entry lies in the window, when the query
      has one and the entry a time. */
  ghost predicate Gives(line: string, date: string, q: Query, r: Rules) {
    && (exists c :: c in line && !JsSpace(c))
    && (q.metrics ==> r.isMetric(line))
    && var stamp := r.normalize(line, date).timestamp;
       (q.window.Some? && stamp.Some? && r.time(stamp.value).Some? ==>
          && r.time(stamp.value).value >= q.window.value.0
          && r.time(stamp.value).value <= q.window.value.1)
  }

  /** The entries of the lines that give one, in the order of the lines. */
  ghost function Given(lines: seq<string>, date: string, q: Query, r: Rules): seq<LogEntry> {
    if lines == [] then []
    else
      (if Gives(lines[0], date, q, r) then [r.normalize(lines[0], date)] else []) + Given(lines[1..], date, q, r)
  }

  lemma LineGives(line: string, date: string, q: Query, r: Rules)
    ensures Gives(line, date, q, r) <==> Counts(line, q, r) && InWindow(r.normalize(line, date), q, r)
  {
    if !BlankLine(line) {
      var c :| c in line && !JsSpace(c);
    }
  }

  lemma {:induction false} ShownIsGiven(lines: seq<string>, date: string, q: Query, r: Rules)
    ensures Shown(Relevant(date, lines, q, r), q, r) == Given(lines, date, q, r)
  {
    if lines == [] {
    } else {
      LineGives(lines[0], date, q, r);
      ShownIsGiven(lines[1..], date, q, r);
      if Counts(lines[0], q, r) {
        CountedLine(date, lines, q, r);
        ShownCons(Dated(date, lines[0]), Relevant(date, lines[1..], q, r), q, r);
      } else {
        NotRelevant(date, lines, q, r);
      }
    }
  }

  lemma NotRelevant(date: string, lines: seq<string>, q: Query, r: Rules)
    requires lines != [] && !Counts(lines[0], q, r)
    ensures Relevant(date, lines, q, r) == Relevant(date, lines[1..], q, r)
  {
  }

  /** A day's entries are those of its lines, in the file's order. */
  lemma DayIsGiven(date: string, content: string, q: Query, r: Rules)
    ensures DayEntries(date, content, q, r) == Given(Text.Split(content, '\n'), date, q, r)
  {
    ShownIsGiven(Text.Split(content, '\n'), date, q, r);
  }

  lemma {:induction false} GivenBySomeLine(lines: seq<string>, date: string, q: Query, r: Rules, e: LogEntry)
    ensures e in Given(lines, date, q, r) <==>
      exists i :: 0 <= i < |lines| && Gives(lines[i], date, q, r) && r.normalize(lines[i], date) == e
  {
    if lines == [] {
    } else {
      var rest := lines[1..];
      GivenBySomeLine(rest, date, q, r, e);
      if i :| 0 <= i < |lines| && Gives(lines[i], date, q, r) && r.normalize(lines[i], date) == e {
        assert i > 0 ==> rest[i - 1] == lines[i];
      }
      if i :| 0 <= i < |rest| && Gives(rest[i], date, q, r) && r.normalize(rest[i], date) == e {
        assert lines[i + 1] == rest[i];
      }
    }
  }

  /** An entry belongs to a day exactly when some line of the day's text gives it. */
  lemma EntryExactlyWhen(date: string, content: string, q: Query, r: Rules, e: LogEntry)
    ensures var lines := Text.Split(content, '\n');
      e in DayEntries(date, content, q, r) <==>
        exists i :: 0 <= i < |lines| && Gives(lines[i], date, q, r) && r.normalize(lines[i], date) == e
  {
    DayIsGiven(date, content, q, r);
    GivenBySomeLine(Text.Split(content, '\n'), date, q, r, e);
  }

  /** The tail, for queries that do not ask for metrics. */
  lemma TailIsGiven(date: string, content: string, q: Query, r: Rules)
    requires !q.metrics
    ensures TailEntries(date, content, q, r) == Given(TailLines(content), date, q, r)
  {
    assert q.(metrics := false) == q;
    ShownIsGiven(TailLines(content), date, q, r);
  }

  lemma SpaceIsSpace()
    ensures JsSpace(' ') && JsSpace('\t') && JsSpace('\r') && JsSpace('\n')
    ensures forall c :: '!' <= c <= '~' ==> !JsSpace(c)
  {
  }

  // ---------- several days ----------

  /** The days' entries one after the other, in the order of the dates. */
  function DayByDay(dates: seq<string>, files: map<string, seq<string>>, q: Query, r: Rules): seq<LogEntry> {
    if dates == [] then []
    else DayEntries(dates[0], Content(files, dates[0]), q, r) + DayByDay(dates[1..], files, q, r)
  }

  lemma {:induction false} RangeIsDayByDay(dates: seq<string>, files: map<string, seq<string>>, q: Query, r: Rules)
    ensures Shown(RangeLines(dates, files, q, r), q, r) == DayByDay(dates, files, q, r)
    decreases dates
  {
    if dates == [] {
    } else {
      RangeIsDayByDay(dates[1..], files, q, r);
      ShownAppend(DayLines(dates[0], Content(files, dates[0]), q, r), RangeLines(dates[1..], files, q, r), q, r);
    }
  }

  /** Some line of some of the days gives the entry. */
  ghost predicate FromALine(e: LogEntry, dates: seq<string>, files: map<string, seq<string>>, q: Query, r: Rules) {
    exists d, line :: IsLineOf(d, line, dates, files) && Gives(line, d, q, r) && r.normalize(line, d) == e
  }

  predicate IsLineOf(date: string, line: string, dates: seq<string>, files: map<string, seq<string>>) {
    date in dates && line in Text.Split(Content(files, date), '\n')
  }

  lemma DayComesFromLines(date: string, dates: seq<string>, files: map<string, seq<string>>, q: Query, r: Rules,
                          e: LogEntry)
    requires date in dates && e in DayEntries(date, Content(files, date), q, r)
    ensures FromALine(e, dates, files, q, r)
  {
    var lines := Text.Split(Content(files, date), '\n');
    EntryExactlyWhen(date, Content(files, date), q, r, e);
    var i :| 0 <= i < |lines| && Gives(lines[i], date, q, r) && r.normalize(lines[i], date) == e;
    assert IsLineOf(date, lines[i], dates, files);
  }

  lemma {:induction false} DaysComeFromLines(dates: seq<string>, all: seq<string>, files: map<string, seq<string>>,
                                             q: Query, r: Rules, e: LogEntry)
    requires e in DayByDay(dates, files, q, r) && forall d :: d in dates ==> d in all
    ensures FromALine(e, all, files, q, r)
    decreases dates
  {
    if dates == [] {
    } else if e in DayEntries(dates[0], Content(files, dates[0]), q, r) {
      DayComesFromLines(dates[0], all, files, q, r, e);
    } else {
      DaysComeFromLines(dates[1..], all, files, q, r, e);
    }
  }

  lemma PageIsPart(all: seq<LogEntry>, offset: nat, limit: nat, e: LogEntry)
    requires e in NewestPage(all, offset, limit)
    ensures e in all
  {
    var i :| 0 <= i < |NewestPage(all, offset, limit)| && NewestPage(all, offset, limit)[i] == e;
    assert Reverse(all)[offset + i] == e;
  }

  lemma TakenIsPart(all: seq<LogEntry>, n: nat, e: LogEntry)
    requires e in Take(all, n)
    ensures e in all
  {
  }

  lemma LastIsPart(all: seq<LogEntry>, n: nat, e: LogEntry)
    requires e in LastN(all, n)
    ensures e in all
  {
  }

  lemma ReversedIsPart(all: seq<LogEntry>, e: LogEntry)
    requires e in Reverse(all)
    ensures e in all
  {
    var i :| 0 <= i < |Reverse(all)| && Reverse(all)[i] == e;
  }

  lemma {:induction false} DroppedIsPart(lines: seq<Dated>, n: nat, q: Query, r: Rules, e: LogEntry)
    requires e in Shown(Drop(lines, n), q, r)
    ensures e in Shown(lines, q, r)
  {
    if n <= |lines| {
      assert lines == lines[..n] + lines[n..];
      ShownAppend(lines[..n], lines[n..], q, r);
    }
  }

  lemma TailIsPart(date: string, content: string, q: Query, r: Rules, e: LogEntry)
    requires !q.metrics && e in TailEntries(date, content, q, r)
    ensures e in DayEntries(date, content, q, r)
  {
    TailIsSuffixOfDay(date, content, q, r);
  }

  /** Whatever the mode of a date or date-range query: each entry of its page comes from a line of one of the days that
      has text, is a metric line when metrics are asked for, and lies in the window. */
  lemma PageComesFromLines(dates: seq<string>, files: map<string, seq<string>>, q: Query, r: Rules, asc: bool,
                           e: LogEntry)
    requires dates != [] && e in RangeEntries(dates, files, q, r, asc)
    ensures FromALine(e, dates, files, q, r)
  {
    if |dates| == 1 && !q.metrics && q.window.None? {
      SingleDayPart(dates, files, q, r, asc, e);
      DayComesFromLines(dates[0], dates, files, q, r, e);
    } else {
      RangePart(dates, files, q, r, asc, e);
      RangeIsDayByDay(dates, files, q, r);
      DaysComeFromLines(dates, dates, files, q, r, e);
    }
  }

  lemma SingleDayPart(dates: seq<string>, files: map<string, seq<string>>, q: Query, r: Rules, asc: bool, e: LogEntry)
    requires |dates| == 1 && !q.metrics && q.window.None? && e in RangeEntries(dates, files, q, r, asc)
    ensures e in DayEntries(dates[0], Content(files, dates[0]), q, r)
  {
    var tail := TailEntries(dates[0], Content(files, dates[0]), q, r);
    if asc {
      ReversedIsPart(LastN(tail, q.limit), e);
    }
    LastIsPart(tail, q.limit, e);
    TailIsPart(dates[0], Content(files, dates[0]), q, r, e);
  }

  lemma RangePart(dates: seq<string>, files: map<string, seq<string>>, q: Query, r: Rules, asc: bool, e: LogEntry)
    requires dates != [] && !(|dates| == 1 && !q.metrics && q.window.None?)
    requires e in RangeEntries(dates, files, q, r, asc)
    ensures e in Shown(RangeLines(dates, files, q, r), q, r)
  {
    var lines := RangeLines(dates, files, q, r);
    var all, shown := Shown(lines, q, r), Shown(Drop(lines, q.offset), q, r);
    if !asc && !q.metrics {
      PageIsPart(Take(all, Max(q.offset + q.limit, READ_CAP)), q.offset, q.limit, e);
      TakenIsPart(all, Max(q.offset + q.limit, READ_CAP), e);
    } else {
      var kept := if q.metrics then shown else Take(shown, q.limit);
      if !asc {
        ReversedIsPart(kept, e);
      }
      if !q.metrics {
        TakenIsPart(shown, q.limit, e);
      }
      DroppedIsPart(lines, q.offset, q, r, e);
    }
  }

  /** What latest mode sees of a day are entries of that day. */
  lemma ViewIsPart(date: string, content: string, q: Query, r: Rules, e: LogEntry)
    requires e in DayView(date, content, q, r)
    ensures e in DayEntries(date, content, q, r)
  {
    var q0, need := q.(offset := 0), q.offset + q.limit + 1;
    SameDay(date, content, q, q0, r);
    LastIsPart(DayRead(date, content, q.metrics, q0, r, need), need, e);
    if !q.metrics {
      NewestIsPart(date, content, q0, r, need, e);
    }
  }

  lemma NewestIsPart(date: string, content: string, q: Query, r: Rules, need: nat, e: LogEntry)
    requires !q.metrics && e in NewestOfDay(date, content, q, r, need)
    ensures e in DayEntries(date, content, q, r)
  {
    if e in LastN(TailEntries(date, content, q, r), need) {
      LastIsPart(TailEntries(date, content, q, r), need, e);
      TailIsPart(date, content, q, r, e);
    } else {
      TakenIsPart(DayEntries(date, content, q, r), Max(need, READ_CAP), e);
    }
  }

  lemma {:induction false} CollectIsPart(views: seq<seq<LogEntry>>, enough: nat, newer: seq<LogEntry>, e: LogEntry)
    requires e in Collect(views, enough, newer)
    ensures e in newer || exists i :: 0 <= i < |views| && e in views[i]
    decreases views
  {
    if views == [] || |newer| > enough {
    } else {
      CollectIsPart(views[1..], enough, views[0] + newer, e);
      if i :| 0 <= i < |views[1..]| && e in views[1..][i] {
        assert e in views[i + 1];
      }
    }
  }

  /** The same for latest mode: each entry of its page comes from such a line. */
  lemma LatestComesFromLines(dates: seq<string>, files: map<string, seq<string>>, q: Query, r: Rules, e: LogEntry)
    requires e in NewestPage(Collected(dates, files, q, r), q.offset, q.limit)
    ensures FromALine(e, dates, files, q, r)
  {
    PageIsPart(Collected(dates, files, q, r), q.offset, q.limit, e);
    var date := SomeDay(dates, files, q, r, e);
    ViewIsPart(date, Content(files, date), q, r, e);
    DayComesFromLines(date, dates, files, q, r, e);
  }

  lemma SomeDay(dates: seq<string>, files: map<string, seq<string>>, q: Query, r: Rules, e: LogEntry)
    returns (date: string)
    requires e in Collected(dates, files, q, r)
    ensures date in dates && e in DayView(date, Content(files, date), q, r)
  {
    var views := Views(dates, files, q, r);
    CollectIsPart(views, q.offset + q.limit, [], e);
    var i :| 0 <= i < |views| && e in views[i];
    date := dates[i];
  }

  // ---------- pages that are not said elsewhere ----------

  /** Metrics are not cut: behind the offset the page has all of them, in the order asked for. */
  lemma MetricsPage(dates: seq<string>, files: map<string, seq<string>>, q: Query, r: Rules, asc: bool)
    requires dates != [] && q.metrics && q.window.None?
    ensures var rest := Drop(DayByDay(dates, files, q, r), q.offset);
      RangeEntries(dates, files, q, r, asc) == if asc then rest else Reverse(rest)
  {
    var lines := RangeLines(dates, files, q, r);
    RangeIsDayByDay(dates, files, q, r);
    if q.offset <= |lines| {
      ShownDrop(lines, q.offset, q, r);
    }
  }

  /** An ascending page with a time window: the first `limit` entries of the lines behind the offset, which counts lines
      before the window is looked at. */
  lemma WindowedPage(dates: seq<string>, files: map<string, seq<string>>, q: Query, r: Rules)
    requires dates != [] && !q.metrics && q.window.Some?
    ensures RangeEntries(dates, files, q, r, true)
         == Take(Shown(Drop(RangeLines(dates, files, q, r), q.offset), q, r), q.limit)
  {
  }

  /** A single day that fits the tail, or whose tail has `limit` entries: the page is the day's last `limit` entries, in
      file order, or reversed when ascending order is asked for. */
  lemma SingleDayPageExactly(date: string, files: map<string, seq<string>>, q: Query, r: Rules, asc: bool)
    requires !q.metrics && q.window.None?
    requires |Content(files, date)| <= TAIL_BYTES || |TailEntries(date, Content(files, date), q, r)| >= q.limit
    ensures var newest := LastN(DayEntries(date, Content(files, date), q, r), q.limit);
      RangeEntries([date], files, q, r, asc) == if asc then Reverse(newest) else newest
  {
    TailIsSuffixOfDay(date, Content(files, date), q, r);
  }
}
