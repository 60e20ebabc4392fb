/** What a log query means: split a day file into lines, keep the ones that count, skip the offset,
    apply the time window, stop at the limit. JSON decoding is a parameter. */
module LogLines {
  import opened Results
  import Text

  datatype LogEntry = LogEntry(date: string, content: string, timestamp: Option<string>)

  /** The parts of line handling that depend on JSON and on Date parsing. `time` is None for a
      timestamp that Date cannot parse; such a timestamp compares false with everything. */
  datatype Rules = Rules(
    isMetric: string -> bool,
    normalize: (string, string) -> LogEntry,
    time: string -> Option<int>)

  datatype Query = Query(limit: nat, offset: nat, metrics: bool, window: Option<(int, int)>)

  /** A line together with the day it came from. */
  datatype Dated = Dated(date: string, line: string)

  // ---------- sequences ----------

  function Take<T>(s: seq<T>, n: nat): seq<T> {
    if n <= |s| then s[..n] else s
  }

  function Drop<T>(s: seq<T>, n: nat): seq<T> {
    if n <= |s| then s[n..] else []
  }

  function LastN<T>(s: seq<T>, n: nat): seq<T> {
    if n <= |s| then s[|s| - n..] else s
  }

  function Reverse<T>(s: seq<T>): (r: seq<T>)
    ensures |r| == |s|
    ensures forall i :: 0 <= i < |s| ==> r[i] == s[|s| - 1 - i]
  {
    seq(|s|, i requires 0 <= i < |s| => s[|s| - 1 - i])
  }

  function Concat(chunks: seq<string>): string {
    if chunks == [] then "" else chunks[0] + Concat(chunks[1..])
  }

  lemma {:induction false} ConcatSnoc(chunks: seq<string>, chunk: string)
    ensures Concat(chunks + [chunk]) == Concat(chunks) + chunk
  {
    if chunks == [] {
      assert chunks + [chunk] == [chunk];
    } else {
      ConcatSnoc(chunks[1..], chunk);
      assert (chunks + [chunk])[1..] == chunks[1..] + [chunk];
    }
  }

  // ---------- lines ----------

  /** The white space that String.prototype.trim removes. */
  predicate JsSpace(c: char) {
    c == '\U{FEFF}' || (Text.IsSpace(c) && c != '\U{0085}')
  }

  predicate BlankLine(line: string) {
    forall c :: c in line ==> JsSpace(c)
  }

  predicate Counts(line: string, q: Query, r: Rules) {
    !BlankLine(line) && (q.metrics ==> r.isMetric(line))
  }

  predicate InWindow(e: LogEntry, q: Query, r: Rules) {
    q.window.Some? && e.timestamp.Some? && r.time(e.timestamp.value).Some? ==>
      q.window.value.0 <= r.time(e.timestamp.value).value <= q.window.value.1
  }

  /** The lines that count towards offset and limit. */
  function Relevant(date: string, lines: seq<string>, q: Query, r: Rules): (rel: seq<Dated>)
    ensures |rel| <= |lines|
  {
    if lines == [] then []
    else (if Counts(lines[0], q, r) then [Dated(date, lines[0])] else []) + Relevant(date, lines[1..], q, r)
  }

  /** The entries of counted lines that fall into the time window. */
  function Shown(lines: seq<Dated>, q: Query, r: Rules): (shown: seq<LogEntry>)
    ensures |shown| <= |lines|
    ensures q.window.None? ==> |shown| == |lines|
  {
    if lines == [] then []
    else
      var e := r.normalize(lines[0].line, lines[0].date);
      (if InWindow(e, q, r) then [e] else []) + Shown(lines[1..], q, r)
  }

  function DayLines(date: string, content: string, q: Query, r: Rules): seq<Dated> {
    Relevant(date, Text.Split(content, '\n'), q, r)
  }

  function DayEntries(date: string, content: string, q: Query, r: Rules): seq<LogEntry> {
    Shown(DayLines(date, content, q, r), q, r)
  }

  lemma Regroup<T>(a: seq<T>, b: seq<T>, c: seq<T>)
    ensures (a + b) + c == a + (b + c)
  {
  }

  lemma TailOfSum<T>(a: seq<T>, b: seq<T>)
    requires a != []
    ensures a + b != [] && (a + b)[0] == a[0] && (a + b)[1..] == a[1..] + b
  {
  }

  lemma {:induction false} RelevantAppend(date: string, a: seq<string>, b: seq<string>, q: Query, r: Rules)
    ensures Relevant(date, a + b, q, r) == Relevant(date, a, q, r) + Relevant(date, b, q, r)
  {
    if a == [] {
      assert a + b == b;
    } else {
      RelevantAppend(date, a[1..], b, q, r);
      TailOfSum(a, b);
      var first := if Counts(a[0], q, r) then [Dated(date, a[0])] else [];
      Regroup(first, Relevant(date, a[1..], q, r), Relevant(date, b, q, r));
    }
  }

  lemma {:induction false} ShownAppend(a: seq<Dated>, b: seq<Dated>, q: Query, r: Rules)
    ensures Shown(a + b, q, r) == Shown(a, q, r) + Shown(b, q, r)
  {
    if a == [] {
      assert a + b == b;
    } else {
      ShownAppend(a[1..], b, q, r);
      TailOfSum(a, b);
      var e := r.normalize(a[0].line, a[0].date);
      Regroup(if InWindow(e, q, r) then [e] else [], Shown(a[1..], q, r), Shown(b, q, r));
    }
  }

  // ---------- the streaming reader, line by line ----------

  /** The `entries` array, the `skipped` counter, and whether the reader has stopped. */
  datatype Reading = Reading(entries: seq<LogEntry>, skipped: nat, stopped: bool)

  /** One complete line of the stream. */
  function ReadLine(s: Reading, date: string, line: string, q: Query, r: Rules): Reading {
    if s.stopped || !Counts(line, q, r) then s
    else if s.skipped < q.offset then s.(skipped := s.skipped + 1)
    else
      var e := r.normalize(line, date);
      if !InWindow(e, q, r) then s
      else Reading(s.entries + [e], s.skipped, !q.metrics && |s.entries| + 1 >= q.limit)
  }

  /** What follows the last newline. */
  function ReadLeftover(s: Reading, date: string, line: string, q: Query, r: Rules): Reading {
    if s.stopped || !Counts(line, q, r) then s
    else if s.skipped < q.offset then s.(skipped := s.skipped + 1)
    else if !q.metrics && |s.entries| >= q.limit then s
    else
      var e := r.normalize(line, date);
      if !InWindow(e, q, r) then s else s.(entries := s.entries + [e])
  }

  function ReadLines(s: Reading, date: string, lines: seq<string>, q: Query, r: Rules): Reading
    decreases lines
  {
    if lines == [] then s else ReadLines(ReadLine(s, date, lines[0], q, r), date, lines[1..], q, r)
  }

  /** The whole file: every piece but the last is a line, the last is the leftover. */
  function ReadFile(s: Reading, date: string, content: string, q: Query, r: Rules): Reading {
    var pieces := Text.Split(content, '\n');
    ReadLeftover(ReadLines(s, date, pieces[..|pieces| - 1], q, r), date, pieces[|pieces| - 1], q, r)
  }

  lemma {:induction false} ReadLinesAppend(s: Reading, date: string, a: seq<string>, b: seq<string>, q: Query, r: Rules)
    ensures ReadLines(s, date, a + b, q, r) == ReadLines(ReadLines(s, date, a, q, r), date, b, q, r)
    decreases a
  {
    if a == [] {
      assert a + b == b;
    } else {
      ReadLinesAppend(ReadLine(s, date, a[0], q, r), date, a[1..], b, q, r);
      assert (a + b)[1..] == a[1..] + b;
    }
  }

  lemma {:induction false} StoppedStays(s: Reading, date: string, lines: seq<string>, q: Query, r: Rules)
    requires s.stopped
    ensures ReadLines(s, date, lines, q, r) == s
    decreases lines
  {
    if lines == [] {
    } else {
      StoppedStays(s, date, lines[1..], q, r);
    }
  }

  /** The simple form: skip, window, cut at the limit - in one pass over the counted lines. */
  function OnePass(entries: seq<LogEntry>, skipped: nat, lines: seq<Dated>, q: Query, r: Rules): (seq<LogEntry>, nat) {
    var left := if skipped >= q.offset then 0 else q.offset - skipped;
    var skip := if left <= |lines| then left else |lines|;
    var shown := Shown(lines[skip..], q, r);
    (if q.metrics then entries + shown else Take(entries + shown, q.limit), skipped + skip)
  }

  /** One counted line in front. */
  lemma OnePassCons(entries: seq<LogEntry>, skipped: nat, d: Dated, rest: seq<Dated>, q: Query, r: Rules)
    ensures skipped < q.offset ==>
      OnePass(entries, skipped, [d] + rest, q, r) == OnePass(entries, skipped + 1, rest, q, r)
    ensures skipped >= q.offset ==>
      var e := r.normalize(d.line, d.date);
      OnePass(entries, skipped, [d] + rest, q, r)
        == OnePass(if InWindow(e, q, r) then entries + [e] else entries, skipped, rest, q, r)
  {
    var all := [d] + rest;
    assert all[1..] == rest;
    if skipped < q.offset {
      var skip := if q.offset - (skipped + 1) <= |rest| then q.offset - (skipped + 1) else |rest|;
      assert all[skip + 1..] == rest[skip..];
    } else {
      var e := r.normalize(d.line, d.date);
      assert all[0..] == all && rest[0..] == rest;
      if InWindow(e, q, r) {
        assert entries + Shown(all, q, r) == (entries + [e]) + Shown(rest, q, r);
      } else {
        assert [] + Shown(rest, q, r) == Shown(rest, q, r);
      }
    }
  }

  lemma OnePassFull(entries: seq<LogEntry>, skipped: nat, lines: seq<Dated>, q: Query, r: Rules)
    requires !q.metrics && |entries| == q.limit && skipped >= q.offset
    ensures OnePass(entries, skipped, lines, q, r) == (entries, skipped)
  {
  }

  lemma {:induction false} ReadLinesOnePass(s: Reading, date: string, lines: seq<string>, q: Query, r: Rules)
    requires !s.stopped && (q.metrics || |s.entries| < q.limit)
    ensures var t := ReadLines(s, date, lines, q, r);
            && (t.entries, t.skipped) == OnePass(s.entries, s.skipped, Relevant(date, lines, q, r), q, r)
            && (t.stopped <==> !q.metrics && |t.entries| >= q.limit)
    decreases lines
  {
    if lines == [] {
      assert s.entries + [] == s.entries;
    } else {
      var next := ReadLine(s, date, lines[0], q, r);
      var rest := Relevant(date, lines[1..], q, r);
      if Counts(lines[0], q, r) {
        OnePassCons(s.entries, s.skipped, Dated(date, lines[0]), rest, q, r);
      } else {
        assert [] + rest == rest;
      }
      if next.stopped {
        StoppedStays(next, date, lines[1..], q, r);
        OnePassFull(next.entries, next.skipped, rest, q, r);
      } else {
        ReadLinesOnePass(next, date, lines[1..], q, r);
      }
    }
  }

  /** Reading a file in the source's way is the one-pass form over split(text, newline), whenever the
      page still has room on entry (or the query is for metrics, which have no limit). */
  lemma ReadFileOnePass(s: Reading, date: string, content: string, q: Query, r: Rules)
    requires !s.stopped && (q.metrics || |s.entries| < q.limit)
    ensures var t := ReadFile(s, date, content, q, r);
            (t.entries, t.skipped) == OnePass(s.entries, s.skipped, DayLines(date, content, q, r), q, r)
  {
    var pieces := Text.Split(content, '\n');
    var init, last := pieces[..|pieces| - 1], pieces[|pieces| - 1];
    ReadLinesOnePass(s, date, init, q, r);
    ReadLinesOnePass(s, date, pieces, q, r);
    ReadLinesAppend(s, date, init, [last], q, r);
    assert init + [last] == pieces;
    LeftoverIsALine(ReadLines(s, date, init, q, r), date, last, q, r);
  }

  lemma LeftoverIsALine(t: Reading, date: string, last: string, q: Query, r: Rules)
    requires t.stopped <==> !q.metrics && |t.entries| >= q.limit
    ensures var a, b := ReadLines(t, date, [last], q, r), ReadLeftover(t, date, last, q, r);
            a.entries == b.entries && a.skipped == b.skipped
  {
    assert ReadLines(t, date, [last], q, r) == ReadLine(t, date, last, q, r);
  }

  // ---------- suffixes: the tail read ----------

  /** Dropping the first piece of split(content[start..]) leaves a suffix of split(content). */
  lemma TailIsSuffix(content: string, start: nat)
    requires start <= |content|
    ensures var all, tail := Text.Split(content, '\n'), Text.Split(content[start..], '\n');
            |tail| <= |all| && tail[1..] == all[|all| - |tail| + 1..]
  {
    Text.SplitConcat(content[..start], content[start..], '\n');
    assert content[..start] + content[start..] == content;
  }

  lemma SuffixEntries(date: string, all: seq<string>, k: nat, q: Query, r: Rules)
    requires k <= |all|
    ensures var tail, whole := Shown(Relevant(date, all[k..], q, r), q, r), Shown(Relevant(date, all, q, r), q, r);
            |tail| <= |whole| && tail == whole[|whole| - |tail|..]
  {
    assert all[..k] + all[k..] == all;
    RelevantAppend(date, all[..k], all[k..], q, r);
    ShownAppend(Relevant(date, all[..k], q, r), Relevant(date, all[k..], q, r), q, r);
  }
}
