/** What the fast readers of LogsService return, compared with the simple form: split every day file into
    lines, filter, concatenate, slice. */
module LogPaging {
  import opened LogLines
  import opened LogsService
  import Text

  // ---------- a full page on entry ----------

  /** When the page is full on entry, the reader still appends the first complete counted line and stops
      there, but drops a counted leftover: it is then no longer the one-pass form. */
  lemma FullPageOnEntry(s: Reading, date: string, line: string, q: Query, r: Rules)
    requires !s.stopped && !q.metrics && |s.entries| >= q.limit && s.skipped >= q.offset && q.window.None?
    requires '\n' !in line && !BlankLine(line)
    ensures ReadFile(s, date, line + "\n", q, r).entries == s.entries + [r.normalize(line, date)]
    ensures ReadFile(s, date, line, q, r).entries == s.entries
  {
    Text.SplitNoSep(line, '\n');
    Text.SplitAtSep(line, "", '\n');
    assert line + ['\n'] + "" == line + "\n";
    assert Text.Split("", '\n') == [""];
    assert Text.Split(line + "\n", '\n') == [line] + [""];
    WholeFile(s, date, line + "\n", [line], "", q, r);
    WholeFile(s, date, line, [], line, q, r);
    assert BlankLine("");
  }

  /** How many counted lines are still to be skipped. */
  function Left(skipped: nat, q: Query): nat {
    if skipped >= q.offset then 0 else q.offset - skipped
  }

  function Min(a: nat, b: nat): nat {
    if a <= b then a else b
  }

  /** The entries that the lines would add behind the offset. */
  function Addable(date: string, lines: seq<string>, skipped: nat, q: Query, r: Rules): seq<LogEntry> {
    Shown(Drop(Relevant(date, lines, q, r), Left(skipped, q)), q, r)
  }

  /** One line more in front: it does not count, it is skipped, or it is the first to be added. */
  lemma UncountedLine(date: string, lines: seq<string>, skipped: nat, q: Query, r: Rules)
    requires lines != [] && !Counts(lines[0], q, r)
    ensures Relevant(date, lines, q, r) == Relevant(date, lines[1..], q, r)
    ensures Addable(date, lines, skipped, q, r) == Addable(date, lines[1..], skipped, q, r)
  {
    assert [] + Relevant(date, lines[1..], q, r) == Relevant(date, lines[1..], q, r);
  }

  lemma CountedLine(date: string, lines: seq<string>, q: Query, r: Rules)
    requires lines != [] && Counts(lines[0], q, r)
    ensures Relevant(date, lines, q, r) == [Dated(date, lines[0])] + Relevant(date, lines[1..], q, r)
  {
  }

  lemma SkippedLine(date: string, lines: seq<string>, skipped: nat, q: Query, r: Rules)
    requires lines != [] && Counts(lines[0], q, r) && skipped < q.offset
    ensures Addable(date, lines, skipped, q, r) == Addable(date, lines[1..], skipped + 1, q, r)
  {
    CountedLine(date, lines, q, r);
    DropFirst(Dated(date, lines[0]), Relevant(date, lines[1..], q, r), Left(skipped, q), Left(skipped + 1, q));
  }

  lemma DropFirst<T>(first: T, rest: seq<T>, n: nat, fewer: nat)
    requires n == fewer + 1
    ensures Drop([first] + rest, n) == Drop(rest, fewer)
  {
  }

  lemma AddedLine(date: string, lines: seq<string>, skipped: nat, q: Query, r: Rules)
    requires lines != [] && Counts(lines[0], q, r) && skipped >= q.offset
    ensures var e := r.normalize(lines[0], date);
      Addable(date, lines, skipped, q, r) ==
        (if InWindow(e, q, r) then [e] else []) + Addable(date, lines[1..], skipped, q, r)
  {
    var first, rest := Dated(date, lines[0]), Relevant(date, lines[1..], q, r);
    CountedLine(date, lines, q, r);
    DropOfCons(first, rest, 0);
    ShownCons(first, rest, q, r);
  }

  lemma ShownCons(first: Dated, rest: seq<Dated>, q: Query, r: Rules)
    ensures var e := r.normalize(first.line, first.date);
      Shown([first] + rest, q, r) == (if InWindow(e, q, r) then [e] else []) + Shown(rest, q, r)
  {
    assert ([first] + rest)[1..] == rest;
  }

  lemma DropOfCons<T>(first: T, rest: seq<T>, n: nat)
    ensures Drop([first] + rest, n) == if n == 0 then [first] + rest else Drop(rest, n - 1)
    ensures Drop(rest, 0) == rest
  {
  }

  /** What the loop over complete lines makes of a full page: it stops at the first entry it can add. */
  ghost predicate Overfilled(s: Reading, t: Reading, counted: nat, add: seq<LogEntry>, q: Query) {
    if add == [] then t == s.(skipped := s.skipped + Min(Left(s.skipped, q), counted))
    else t.stopped && t.entries == s.entries + [add[0]]
  }

  ghost predicate ReadsFull(s: Reading, date: string, lines: seq<string>, q: Query, r: Rules) {
    Overfilled(s, ReadLines(s, date, lines, q, r), |Relevant(date, lines, q, r)|,
               Addable(date, lines, s.skipped, q, r), q)
  }

  lemma {:induction false} ReadLinesFull(s: Reading, date: string, lines: seq<string>, q: Query, r: Rules)
    requires !s.stopped && !q.metrics && |s.entries| >= q.limit
    ensures ReadsFull(s, date, lines, q, r)
    decreases lines
  {
    if lines == [] {
    } else if !Counts(lines[0], q, r) {
      ReadLinesFull(s, date, lines[1..], q, r);
      FullUncounted(s, date, lines, q, r);
    } else if s.skipped < q.offset {
      ReadLinesFull(s.(skipped := s.skipped + 1), date, lines[1..], q, r);
      FullSkipped(s, date, lines, q, r);
    } else if InWindow(r.normalize(lines[0], date), q, r) {
      FullAdded(s, date, lines, q, r);
    } else {
      ReadLinesFull(s, date, lines[1..], q, r);
      FullOutside(s, date, lines, q, r);
    }
  }

  lemma FirstLine(s: Reading, date: string, lines: seq<string>, q: Query, r: Rules, next: Reading)
    requires lines != [] && ReadLine(s, date, lines[0], q, r) == next
    ensures ReadLines(s, date, lines, q, r) == ReadLines(next, date, lines[1..], q, r)
  {
  }

  lemma FullUncounted(s: Reading, date: string, lines: seq<string>, q: Query, r: Rules)
    requires lines != [] && !Counts(lines[0], q, r) && ReadsFull(s, date, lines[1..], q, r)
    ensures ReadsFull(s, date, lines, q, r)
  {
    FirstLine(s, date, lines, q, r, s);
    UncountedLine(date, lines, s.skipped, q, r);
  }

  lemma FullSkipped(s: Reading, date: string, lines: seq<string>, q: Query, r: Rules)
    requires !s.stopped && lines != [] && Counts(lines[0], q, r) && s.skipped < q.offset
    requires ReadsFull(s.(skipped := s.skipped + 1), date, lines[1..], q, r)
    ensures ReadsFull(s, date, lines, q, r)
  {
    var next := s.(skipped := s.skipped + 1);
    FirstLine(s, date, lines, q, r, next);
    CountedLine(date, lines, q, r);
    SkippedLine(date, lines, s.skipped, q, r);
    SkipMore(s, ReadLines(s, date, lines, q, r), |Relevant(date, lines[1..], q, r)|,
             Addable(date, lines, s.skipped, q, r), q);
  }

  lemma FullAdded(s: Reading, date: string, lines: seq<string>, q: Query, r: Rules)
    requires !s.stopped && !q.metrics && |s.entries| >= q.limit && s.skipped >= q.offset
    requires lines != [] && Counts(lines[0], q, r) && InWindow(r.normalize(lines[0], date), q, r)
    ensures ReadsFull(s, date, lines, q, r)
  {
    var next := ReadLine(s, date, lines[0], q, r);
    FirstLine(s, date, lines, q, r, next);
    StoppedStays(next, date, lines[1..], q, r);
    AddedLine(date, lines, s.skipped, q, r);
  }

  lemma FullOutside(s: Reading, date: string, lines: seq<string>, q: Query, r: Rules)
    requires lines != [] && Counts(lines[0], q, r) && !InWindow(r.normalize(lines[0], date), q, r)
    requires s.skipped >= q.offset && ReadsFull(s, date, lines[1..], q, r)
    ensures ReadsFull(s, date, lines, q, r)
  {
    FirstLine(s, date, lines, q, r, s);
    CountedLine(date, lines, q, r);
    AddedLine(date, lines, s.skipped, q, r);
    PassMore(s, ReadLines(s, date, lines, q, r), |Relevant(date, lines[1..], q, r)|,
             Addable(date, lines[1..], s.skipped, q, r), q);
  }

  lemma SkipMore(s: Reading, t: Reading, counted: nat, add: seq<LogEntry>, q: Query)
    requires s.skipped < q.offset && Overfilled(s.(skipped := s.skipped + 1), t, counted, add, q)
    ensures Overfilled(s, t, counted + 1, add, q)
  {
  }

  lemma PassMore(s: Reading, t: Reading, counted: nat, add: seq<LogEntry>, q: Query)
    requires s.skipped >= q.offset && Overfilled(s, t, counted, add, q)
    ensures Overfilled(s, t, counted + 1, [] + add, q)
  {
    assert [] + add == add;
  }

  /** With a page that is full on entry the reader is the one-pass form exactly when no complete line behind the
      offset counts and falls in the time window: such a line would be added although the page is full. */
  lemma FullPageExactlyWhen(s: Reading, date: string, content: string, q: Query, r: Rules)
    requires !s.stopped && !q.metrics && |s.entries| == q.limit
    ensures var t, pieces := ReadFile(s, date, content, q, r), Text.Split(content, '\n');
      (t.entries, t.skipped) == OnePass(s.entries, s.skipped, DayLines(date, content, q, r), q, r) <==>
        Addable(date, pieces[..|pieces| - 1], s.skipped, q, r) == []
  {
    var complete, last := CountOfDay(date, content, q, r);
    ReadLinesFull(s, date, complete, q, r);
    ReadInTwo(s, date, content, complete, last, q, r);
    OnePassOfFull(s.entries, s.skipped, DayLines(date, content, q, r), q, r);
    LeftoverOfFull(s, ReadLines(s, date, complete, q, r), date, last, |Relevant(date, complete, q, r)|,
                   Addable(date, complete, s.skipped, q, r), q, r);
  }

  lemma ReadInTwo(s: Reading, date: string, content: string, complete: seq<string>, last: string, q: Query, r: Rules)
    requires var pieces := Text.Split(content, '\n');
      complete == pieces[..|pieces| - 1] && last == pieces[|pieces| - 1]
    ensures ReadFile(s, date, content, q, r) == ReadLeftover(ReadLines(s, date, complete, q, r), date, last, q, r)
  {
  }

  lemma CountOfDay(date: string, content: string, q: Query, r: Rules) returns (complete: seq<string>, last: string)
    ensures var pieces := Text.Split(content, '\n');
      complete == pieces[..|pieces| - 1] && last == pieces[|pieces| - 1]
    ensures |DayLines(date, content, q, r)|
         == |Relevant(date, complete, q, r)| + if Counts(last, q, r) then 1 else 0
  {
    var pieces := Text.Split(content, '\n');
    complete, last := pieces[..|pieces| - 1], pieces[|pieces| - 1];
    assert pieces == complete + [last];
    RelevantAppend(date, complete, [last], q, r);
    OneRelevant(date, last, q, r);
  }

  /** The leftover is counted towards the offset and never added. */
  lemma LeftoverOfFull(s: Reading, t: Reading, date: string, last: string, counted: nat, add: seq<LogEntry>, q: Query,
                       r: Rules)
    requires !s.stopped && !q.metrics && |s.entries| == q.limit && Overfilled(s, t, counted, add, q)
    ensures var u, all := ReadLeftover(t, date, last, q, r), counted + if Counts(last, q, r) then 1 else 0;
      (u.entries, u.skipped) == (s.entries, s.skipped + Min(Left(s.skipped, q), all)) <==> add == []
  {
  }

  lemma OneRelevant(date: string, line: string, q: Query, r: Rules)
    ensures Relevant(date, [line], q, r) == if Counts(line, q, r) then [Dated(date, line)] else []
  {
    assert [line][1..] == [];
  }

  lemma OnePassOfFull(entries: seq<LogEntry>, skipped: nat, lines: seq<Dated>, q: Query, r: Rules)
    requires !q.metrics && |entries| == q.limit
    ensures OnePass(entries, skipped, lines, q, r) == (entries, skipped + Min(Left(skipped, q), |lines|))
  {
  }

  // ---------- the tail read ----------

  /** The tail read returns a suffix of the day's entries, and all of them when it reports no cut. */
  lemma TailIsSuffixOfDay(date: string, content: string, q: Query, r: Rules)
    requires !q.metrics
    ensures var tail, day := TailEntries(date, content, q, r), DayEntries(date, content, q, r);
            && |tail| <= |day| && tail == day[|day| - |tail|..]
            && (|content| <= TAIL_BYTES ==> tail == day)
            && forall n: nat :: n <= |tail| ==> LastN(tail, n) == LastN(day, n)
  {
    assert q.(metrics := false) == q;
    if |content| > TAIL_BYTES {
      CutTailIsSuffix(date, content, q, r);
    }
    SuffixAgrees(TailEntries(date, content, q, r), DayEntries(date, content, q, r));
  }

  lemma CutTailIsSuffix(date: string, content: string, q: Query, r: Rules)
    requires |content| > TAIL_BYTES
    ensures var tail, day := Shown(Relevant(date, TailLines(content), q, r), q, r), DayEntries(date, content, q, r);
            |tail| <= |day| && tail == day[|day| - |tail|..]
  {
    var k := CutTail(content);
    SuffixEntries(date, Text.Split(content, '\n'), k, q, r);
  }

  lemma CutTail(content: string) returns (k: nat)
    requires |content| > TAIL_BYTES
    ensures k <= |Text.Split(content, '\n')| && TailLines(content) == Text.Split(content, '\n')[k..]
  {
    TailIsSuffix(content, |content| - TAIL_BYTES);
    k := |Text.Split(content, '\n')| - |TailLines(content)|;
  }

  lemma SuffixAgrees(tail: seq<LogEntry>, day: seq<LogEntry>)
    requires |tail| <= |day| && tail == day[|day| - |tail|..]
    ensures forall n: nat :: n <= |tail| ==> LastN(tail, n) == LastN(day, n)
  {
  }

  // ---------- latest mode ----------

  /** The days' own entries, in the order of the dates. */
  function Days(dates: seq<string>, files: map<string, seq<string>>, q: Query, r: Rules): seq<seq<LogEntry>> {
    seq(|dates|, i requires 0 <= i < |dates| => DayEntries(dates[i], Content(files, dates[i]), q, r))
  }

  /** Days listed newest first, put together oldest first. */
  function Chronological(days: seq<seq<LogEntry>>): seq<LogEntry> {
    if days == [] then [] else Chronological(days[1..]) + days[0]
  }

  /** Every entry of the lookback, oldest first. */
  function AllEntries(dates: seq<string>, files: map<string, seq<string>>, q: Query, r: Rules): seq<LogEntry> {
    Chronological(Days(dates, files, q, r))
  }

  /** When one day's view is exact: metrics; the file fits the tail; the tail holds offset+limit+1 entries;
      or the day has at most max(offset+limit+1, 10000) entries. */
  predicate DayIsExact(date: string, content: string, q: Query, r: Rules) {
    var need := q.offset + q.limit + 1;
    || q.metrics
    || |content| <= TAIL_BYTES
    || |TailEntries(date, content, q, r)| >= need
    || |DayEntries(date, content, q, r)| <= Max(need, READ_CAP)
  }

  /** Every day that can still contribute to the page is exact. */
  predicate NeededExact(views: seq<seq<LogEntry>>, exact: seq<bool>, n: nat, newer: nat)
    requires |views| == |exact|
    decreases views
  {
    views == [] || newer >= n || (exact[0] && NeededExact(views[1..], exact[1..], n, newer + |views[0]|))
  }

  function ExactDays(dates: seq<string>, files: map<string, seq<string>>, q: Query, r: Rules): seq<bool> {
    seq(|dates|, i requires 0 <= i < |dates| => DayIsExact(dates[i], Content(files, dates[i]), q, r))
  }

  predicate NeededDaysExact(dates: seq<string>, files: map<string, seq<string>>, q: Query, r: Rules) {
    NeededExact(Views(dates, files, q, r), ExactDays(dates, files, q, r), q.offset + q.limit, 0)
  }

  lemma LastNAppend<T>(a: seq<T>, b: seq<T>, c: seq<T>, n: nat)
    requires LastN(a, n) == LastN(b, n)
    ensures LastN(a + c, n) == LastN(b + c, n)
  {
    OnlyLastNMatter(a, c, n);
    OnlyLastNMatter(b, c, n);
  }

  lemma OnlyLastNMatter<T>(a: seq<T>, c: seq<T>, n: nat)
    ensures LastN(a + c, n) == LastN(LastN(a, n) + c, n)
  {
    if n <= |a| {
      var k := |a| - n;
      assert a + c == a[..k] + (a[k..] + c);
      assert (a + c)[|a| + |c| - n..] == (a[k..] + c)[|c|..];
    }
  }

  lemma LastNPrepend<T>(front: seq<T>, a: seq<T>, b: seq<T>, n: nat)
    requires LastN(a, n) == LastN(b, n) && (|a| < n ==> a == b)
    ensures LastN(front + a, n) == LastN(front + b, n)
  {
    if n <= |a| {
      assert |LastN(b, n)| == n;
      assert LastN(front + a, n) == LastN(a, n);
      assert LastN(front + b, n) == LastN(b, n);
    }
  }

  /** An exact day's view is the last offset+limit+1 entries of the day. */
  lemma ExactView(date: string, content: string, q: Query, r: Rules)
    requires DayIsExact(date, content, q, r)
    ensures DayView(date, content, q, r) == LastN(DayEntries(date, content, q, r), q.offset + q.limit + 1)
  {
    var q0, need := q.(offset := 0), q.offset + q.limit + 1;
    SameDay(date, content, q, q0, r);
    if !q.metrics {
      TailIsSuffixOfDay(date, content, q, r);
      NewestOfExact(TailEntries(date, content, q, r), DayEntries(date, content, q, r), |content| > TAIL_BYTES,
                    need, Max(need, READ_CAP));
    }
  }

  lemma NewestOfExact(tail: seq<LogEntry>, day: seq<LogEntry>, cut: bool, need: nat, cap: nat)
    requires |tail| <= |day| && tail == day[|day| - |tail|..] && (!cut ==> tail == day)
    requires !cut || |tail| >= need || |day| <= cap
    ensures LastN(if cut && |LastN(tail, need)| < need then Take(day, cap) else LastN(tail, need), need)
         == LastN(day, need)
  {
    SuffixAgrees(tail, day);
    assert LastN(LastN(tail, need), need) == LastN(tail, need);
  }

  /** An inexact day's view holds the last of its first max(offset+limit+1, 10000) entries instead. */
  lemma InexactView(date: string, content: string, q: Query, r: Rules)
    requires !DayIsExact(date, content, q, r)
    ensures var need, day := q.offset + q.limit + 1, DayEntries(date, content, q, r);
            && |day| > Max(need, READ_CAP)
            && DayView(date, content, q, r) == LastN(day[..Max(need, READ_CAP)], need)
            && |DayView(date, content, q, r)| == need
  {
    var q0, need := q.(offset := 0), q.offset + q.limit + 1;
    SameDay(date, content, q, q0, r);
    NewestOfInexact(TailEntries(date, content, q, r), DayEntries(date, content, q, r), need, Max(need, READ_CAP));
  }

  lemma NewestOfInexact(tail: seq<LogEntry>, day: seq<LogEntry>, need: nat, cap: nat)
    requires |tail| < need <= cap < |day|
    ensures |LastN(tail, need)| < need
    ensures LastN(Take(day, cap), need) == LastN(day[..cap], need) && |LastN(day[..cap], need)| == need
  {
  }

  /** What a view holds of its day: the last n+1 entries, or those of its first `cap` entries. */
  predicate FaithfulDay(view: seq<LogEntry>, day: seq<LogEntry>, exact: bool, n: nat, cap: nat) {
    if exact then view == LastN(day, n + 1) else |day| > cap && view == LastN(day[..cap], n + 1)
  }

  predicate Faithful(views: seq<seq<LogEntry>>, days: seq<seq<LogEntry>>, exact: seq<bool>, n: nat, cap: nat)
    decreases views
  {
    && |views| == |days| == |exact|
    && n < cap
    && (views == [] ||
        (FaithfulDay(views[0], days[0], exact[0], n, cap) && Faithful(views[1..], days[1..], exact[1..], n, cap)))
  }

  lemma {:induction false} FaithfulDays(views: seq<seq<LogEntry>>, days: seq<seq<LogEntry>>, exact: seq<bool>,
                                        n: nat, cap: nat)
    requires |views| == |days| == |exact| && n < cap
    requires forall i :: 0 <= i < |days| ==> FaithfulDay(views[i], days[i], exact[i], n, cap)
    ensures Faithful(views, days, exact, n, cap)
    decreases views
  {
    if views == [] {
    } else {
      FaithfulDays(views[1..], days[1..], exact[1..], n, cap);
    }
  }

  lemma ViewsAreFaithful(dates: seq<string>, files: map<string, seq<string>>, q: Query, r: Rules)
    ensures Faithful(Views(dates, files, q, r), Days(dates, files, q, r), ExactDays(dates, files, q, r),
                     q.offset + q.limit, Max(q.offset + q.limit + 1, READ_CAP))
  {
    var views, days, exact := Views(dates, files, q, r), Days(dates, files, q, r), ExactDays(dates, files, q, r);
    var n, cap := q.offset + q.limit, Max(q.offset + q.limit + 1, READ_CAP);
    forall i | 0 <= i < |dates|
      ensures FaithfulDay(views[i], days[i], exact[i], n, cap)
    {
      var content := Content(files, dates[i]);
      if DayIsExact(dates[i], content, q, r) {
        ExactView(dates[i], content, q, r);
      } else {
        InexactView(dates[i], content, q, r);
      }
    }
    FaithfulDays(views, days, exact, n, cap);
  }

  /** The days of a query, as three lists. */
  lemma TheDays(dates: seq<string>, files: map<string, seq<string>>, q: Query, r: Rules)
    returns (views: seq<seq<LogEntry>>, days: seq<seq<LogEntry>>, exact: seq<bool>)
    ensures Faithful(views, days, exact, q.offset + q.limit, Max(q.offset + q.limit + 1, READ_CAP))
    ensures Collected(dates, files, q, r) == Collect(views, q.offset + q.limit, [])
    ensures AllEntries(dates, files, q, r) == Chronological(days)
    ensures NeededDaysExact(dates, files, q, r) <==> NeededExact(views, exact, q.offset + q.limit, 0)
  {
    views, days, exact := ThreeLists(dates, files, q, r);
    ViewsAreFaithful(dates, files, q, r);
  }

  lemma ThreeLists(dates: seq<string>, files: map<string, seq<string>>, q: Query, r: Rules)
    returns (views: seq<seq<LogEntry>>, days: seq<seq<LogEntry>>, exact: seq<bool>)
    ensures views == Views(dates, files, q, r) && days == Days(dates, files, q, r)
    ensures exact == ExactDays(dates, files, q, r)
    ensures Collected(dates, files, q, r) == Collect(views, q.offset + q.limit, [])
    ensures AllEntries(dates, files, q, r) == Chronological(days)
    ensures NeededDaysExact(dates, files, q, r) <==> NeededExact(views, exact, q.offset + q.limit, 0)
  {
    views, days, exact := Views(dates, files, q, r), Days(dates, files, q, r), ExactDays(dates, files, q, r);
  }

  /** hasMore is right for every query: it holds exactly when more than offset+limit entries exist. */
  lemma {:induction false} CollectedCount(views: seq<seq<LogEntry>>, days: seq<seq<LogEntry>>, exact: seq<bool>,
                                          n: nat, cap: nat, newer: seq<LogEntry>)
    requires Faithful(views, days, exact, n, cap)
    ensures |Collect(views, n, newer)| > n <==> |Chronological(days) + newer| > n
    decreases views
  {
    if views != [] && |newer| <= n {
      CollectedCount(views[1..], days[1..], exact[1..], n, cap, views[0] + newer);
      assert |views[0]| == if |days[0]| > n then n + 1 else |days[0]|;
    }
  }

  lemma SameNewest(older: seq<LogEntry>, view: seq<LogEntry>, day: seq<LogEntry>, newer: seq<LogEntry>, n: nat)
    requires view == LastN(day, n + 1)
    ensures LastN(older + (view + newer), n) == LastN((older + day) + newer, n)
  {
    assert LastN(view, n) == LastN(day, n) && (|view| < n ==> view == day);
    LastNPrepend(older, view, day, n);
    LastNAppend(older + view, older + day, newer, n);
    assert older + (view + newer) == (older + view) + newer;
  }

  lemma LastNOfLonger(front: seq<LogEntry>, newer: seq<LogEntry>, n: nat)
    requires |newer| >= n
    ensures LastN(front + newer, n) == LastN(newer, n)
  {
  }

  /** When the needed days are exact, the newest offset+limit collected entries are the newest there are. */
  lemma {:induction false} CollectedIsNewest(views: seq<seq<LogEntry>>, days: seq<seq<LogEntry>>, exact: seq<bool>,
                                             n: nat, cap: nat, newer: seq<LogEntry>)
    requires Faithful(views, days, exact, n, cap) && NeededExact(views, exact, n, |newer|)
    ensures LastN(Collect(views, n, newer), n) == LastN(Chronological(days) + newer, n)
    decreases views
  {
    if views == [] {
      assert [] + newer == newer;
    } else if |newer| >= n {
      var front := CollectKeeps(views, n, newer);
      LastNOfLonger(front, newer, n);
      LastNOfLonger(Chronological(days), newer, n);
    } else {
      CollectedIsNewest(views[1..], days[1..], exact[1..], n, cap, views[0] + newer);
      SameNewest(Chronological(days[1..]), views[0], days[0], newer, n);
    }
  }

  lemma {:induction false} CollectKeeps(views: seq<seq<LogEntry>>, n: nat, newer: seq<LogEntry>)
    returns (front: seq<LogEntry>)
    ensures Collect(views, n, newer) == front + newer
    decreases views
  {
    if views == [] || |newer| > n {
      front := [];
    } else {
      var rest := CollectKeeps(views[1..], n, views[0] + newer);
      front := rest + views[0];
      assert rest + (views[0] + newer) == front + newer;
    }
  }

  lemma PageAt(a: seq<LogEntry>, offset: nat, limit: nat, i: nat)
    requires i < limit && offset + i < |a|
    ensures i < |NewestPage(a, offset, limit)| && NewestPage(a, offset, limit)[i] == a[|a| - 1 - (offset + i)]
  {
    assert Reverse(a)[offset + i] == a[|a| - 1 - (offset + i)];
  }

  lemma ReverseLastN(a: seq<LogEntry>, n: nat)
    ensures Reverse(LastN(a, n)) == Take(Reverse(a), n)
  {
  }

  lemma DropOfTake(s: seq<LogEntry>, offset: nat, limit: nat)
    ensures Take(Drop(s, offset), limit) == Drop(Take(s, offset + limit), offset)
  {
  }

  /** Pages over two lists agree when their newest offset+limit entries do. */
  lemma PageOfNewest(a: seq<LogEntry>, b: seq<LogEntry>, offset: nat, limit: nat)
    requires LastN(a, offset + limit) == LastN(b, offset + limit)
    ensures NewestPage(a, offset, limit) == NewestPage(b, offset, limit)
  {
    ReverseLastN(a, offset + limit);
    ReverseLastN(b, offset + limit);
    DropOfTake(Reverse(a), offset, limit);
    DropOfTake(Reverse(b), offset, limit);
  }

  lemma CollectIsSimple(views: seq<seq<LogEntry>>, days: seq<seq<LogEntry>>, exact: seq<bool>,
                        offset: nat, limit: nat, cap: nat)
    requires Faithful(views, days, exact, offset + limit, cap)
    ensures |Collect(views, offset + limit, [])| > offset + limit <==> |Chronological(days)| > offset + limit
    ensures NeededExact(views, exact, offset + limit, 0) ==>
              (NewestPage(Collect(views, offset + limit, []), offset, limit)
               == NewestPage(Chronological(days), offset, limit))
  {
    var n := offset + limit;
    CollectedCount(views, days, exact, n, cap, []);
    assert Chronological(days) + [] == Chronological(days);
    if NeededExact(views, exact, n, 0) {
      CollectedIsNewest(views, days, exact, n, cap, []);
      PageOfNewest(Collect(views, n, []), Chronological(days), offset, limit);
    }
  }

  /** Latest mode is the simple form: reverse all entries of the lookback, skip the offset, cut at the
      limit; and hasMore is exact in every case. */
  lemma LatestIsSimple(dates: seq<string>, files: map<string, seq<string>>, q: Query, r: Rules)
    ensures |Collected(dates, files, q, r)| > q.offset + q.limit <==>
              |AllEntries(dates, files, q, r)| > q.offset + q.limit
    ensures NeededDaysExact(dates, files, q, r) ==>
              (NewestPage(Collected(dates, files, q, r), q.offset, q.limit)
               == NewestPage(AllEntries(dates, files, q, r), q.offset, q.limit))
  {
    var views, days, exact := TheDays(dates, files, q, r);
    CollectIsSimple(views, days, exact, q.offset, q.limit, Max(q.offset + q.limit + 1, READ_CAP));
  }

  /** Metrics pages are the simple form without any condition. */
  lemma MetricsAreExact(dates: seq<string>, files: map<string, seq<string>>, q: Query, r: Rules)
    requires q.metrics
    ensures NeededDaysExact(dates, files, q, r)
  {
    AllExact(Views(dates, files, q, r), ExactDays(dates, files, q, r), q.offset + q.limit, 0);
  }

  lemma {:induction false} AllExact(views: seq<seq<LogEntry>>, exact: seq<bool>, n: nat, newer: nat)
    requires |views| == |exact| && forall i :: 0 <= i < |exact| ==> exact[i]
    ensures NeededExact(views, exact, n, newer)
    decreases views
  {
    if views == [] {
    } else {
      AllExact(views[1..], exact[1..], n, newer + |views[0]|);
    }
  }

  predicate Differ(s: seq<LogEntry>, i: nat, j: nat)
    requires i < |s| && j < |s|
  {
    s[i] != s[j]
  }

  predicate Distinct(s: seq<LogEntry>) {
    forall i, j :: 0 <= i < j < |s| ==> Differ(s, i, j)
  }

  /** With pairwise different entries, one needed inexact day spoils the oldest entry of the page. */
  lemma {:induction false} InexactDaySpoils(views: seq<seq<LogEntry>>, days: seq<seq<LogEntry>>, exact: seq<bool>,
                                            n: nat, cap: nat, newer: seq<LogEntry>, all: seq<LogEntry>)
    requires Faithful(views, days, exact, n, cap) && !NeededExact(views, exact, n, |newer|)
    requires all == Chronological(days) + newer && Distinct(all)
    ensures Spoiled(Collect(views, n, newer), all, n)
    decreases views
  {
    var older := Chronological(days[1..]);
    if exact[0] {
      ExactStep(views, days, exact, n, newer);
      InexactDaySpoils(views[1..], days[1..], exact[1..], n, cap, views[0] + newer, all);
    } else {
      FullAtOnce(views, days[0], n, cap, newer);
      SpoiledAt(older, days[0], newer, cap, n, all);
    }
  }

  /** The oldest entry of the page is the wrong one. */
  predicate Spoiled(c: seq<LogEntry>, all: seq<LogEntry>, n: nat) {
    n >= 1 && |c| >= n && |all| >= n && c[|c| - n] != all[|all| - n]
  }

  /** An exact day before an inexact one that is still needed is seen whole. */
  lemma ExactStep(views: seq<seq<LogEntry>>, days: seq<seq<LogEntry>>, exact: seq<bool>, n: nat, newer: seq<LogEntry>)
    requires |views| == |days| == |exact| && views != [] && exact[0] && views[0] == LastN(days[0], n + 1)
    requires !NeededExact(views, exact, n, |newer|)
    ensures !NeededExact(views[1..], exact[1..], n, |views[0] + newer|)
    ensures Collect(views, n, newer) == Collect(views[1..], n, views[0] + newer)
    ensures Chronological(days) + newer == Chronological(days[1..]) + (views[0] + newer)
  {
    StillNeeded(views[1..], exact[1..], n, |newer| + |views[0]|);
    WholeView(views[0], days[0], n);
    Regroup(Chronological(days[1..]), days[0], newer);
  }

  lemma StillNeeded(views: seq<seq<LogEntry>>, exact: seq<bool>, n: nat, newer: nat)
    requires |views| == |exact| && !NeededExact(views, exact, n, newer)
    ensures views != [] && newer < n
  {
  }

  lemma WholeView(view: seq<LogEntry>, day: seq<LogEntry>, n: nat)
    requires view == LastN(day, n + 1) && |view| <= n
    ensures view == day
  {
  }

  /** An inexact day fills the page at once. */
  lemma FullAtOnce(views: seq<seq<LogEntry>>, day: seq<LogEntry>, n: nat, cap: nat, newer: seq<LogEntry>)
    requires views != [] && n < cap < |day| && |newer| < n && views[0] == LastN(day[..cap], n + 1)
    ensures Collect(views, n, newer) == LastN(day[..cap], n + 1) + newer
  {
    assert |views[0] + newer| > n;
  }

  lemma SpoiledAt(older: seq<LogEntry>, day: seq<LogEntry>, newer: seq<LogEntry>, cap: nat, n: nat,
                  all: seq<LogEntry>)
    requires n < cap < |day| && |newer| < n
    requires all == (older + day) + newer && Distinct(all)
    ensures Spoiled(LastN(day[..cap], n + 1) + newer, all, n)
  {
    var c, k := LastN(day[..cap], n + 1) + newer, n - |newer|;
    assert c[|c| - n] == day[cap - k];
    assert all[|older| + (cap - k)] == day[cap - k];
    assert all[|all| - n] == all[|older| + (|day| - k)];
    assert Differ(all, |older| + (cap - k), |older| + (|day| - k));
  }

  lemma PageDiffers(a: seq<LogEntry>, b: seq<LogEntry>, offset: nat, limit: nat)
    requires limit >= 1 && |a| >= offset + limit && |b| >= offset + limit
    requires a[|a| - (offset + limit)] != b[|b| - (offset + limit)]
    ensures NewestPage(a, offset, limit) != NewestPage(b, offset, limit)
  {
    LastOfPage(a, offset, limit);
    LastOfPage(b, offset, limit);
  }

  /** The oldest entry of a full page. */
  lemma LastOfPage(a: seq<LogEntry>, offset: nat, limit: nat)
    requires limit >= 1 && |a| >= offset + limit
    ensures limit - 1 < |NewestPage(a, offset, limit)|
    ensures NewestPage(a, offset, limit)[limit - 1] == a[|a| - (offset + limit)]
  {
    PageAt(a, offset, limit, limit - 1);
  }

  lemma SomewhereSpoiled(views: seq<seq<LogEntry>>, days: seq<seq<LogEntry>>, exact: seq<bool>, n: nat, cap: nat)
    requires Faithful(views, days, exact, n, cap) && Distinct(Chronological(days)) && !NeededExact(views, exact, n, 0)
    ensures Spoiled(Collect(views, n, []), Chronological(days), n)
  {
    var all, none: seq<LogEntry> := Chronological(days), [];
    assert all + none == all;
    InexactDaySpoils(views, days, exact, n, cap, none, all);
  }

  lemma PageSpoiled(views: seq<seq<LogEntry>>, days: seq<seq<LogEntry>>, exact: seq<bool>, offset: nat, limit: nat,
                    cap: nat)
    requires limit >= 1 && Faithful(views, days, exact, offset + limit, cap) && Distinct(Chronological(days))
    requires !NeededExact(views, exact, offset + limit, 0)
    ensures NewestPage(Collect(views, offset + limit, []), offset, limit)
         != NewestPage(Chronological(days), offset, limit)
  {
    SomewhereSpoiled(views, days, exact, offset + limit, cap);
    PageDiffers(Collect(views, offset + limit, []), Chronological(days), offset, limit);
  }

  /** For pairwise different entries the page is the simple form if and only if the needed days are exact. */
  lemma LatestExactlyWhen(dates: seq<string>, files: map<string, seq<string>>, q: Query, r: Rules)
    requires q.limit >= 1 && Distinct(AllEntries(dates, files, q, r))
    ensures (NewestPage(Collected(dates, files, q, r), q.offset, q.limit)
             == NewestPage(AllEntries(dates, files, q, r), q.offset, q.limit))
       <==> NeededDaysExact(dates, files, q, r)
  {
    LatestIsSimple(dates, files, q, r);
    if !NeededDaysExact(dates, files, q, r) {
      var views, days, exact := TheDays(dates, files, q, r);
      PageSpoiled(views, days, exact, q.offset, q.limit, Max(q.offset + q.limit + 1, READ_CAP));
    }
  }

  // ---------- date ranges ----------

  /** The descending range is the simple form when the range has at most max(offset+limit, 10000)
      entries; with pairwise different entries, only then. */
  lemma NewestOfRangeExactlyWhen(shown: seq<LogEntry>, offset: nat, limit: nat)
    requires limit >= 1
    ensures var cap := Max(offset + limit, READ_CAP);
            && (|shown| <= cap ==> NewestPage(Take(shown, cap), offset, limit) == NewestPage(shown, offset, limit))
            && (Distinct(shown) && |shown| > cap ==>
                  NewestPage(Take(shown, cap), offset, limit) != NewestPage(shown, offset, limit))
  {
    var cap := Max(offset + limit, READ_CAP);
    if |shown| <= cap {
      assert Take(shown, cap) == shown;
    } else if Distinct(shown) {
      CutPageDiffers(shown, cap, offset, limit);
    }
  }

  /** The descending range over files: for several days, or for a time window. */
  lemma DescendingRangeExactlyWhen(dates: seq<string>, files: map<string, seq<string>>, q: Query, r: Rules)
    requires dates != [] && !q.metrics && q.limit >= 1 && (|dates| >= 2 || q.window.Some?)
    ensures var all, cap := Shown(RangeLines(dates, files, q, r), q, r), Max(q.offset + q.limit, READ_CAP);
      var page := RangeEntries(dates, files, q, r, false);
      && (|all| <= cap ==> page == NewestPage(all, q.offset, q.limit))
      && (Distinct(all) ==> (page == NewestPage(all, q.offset, q.limit) <==> |all| <= cap))
  {
    DescendingPage(dates, files, q, r);
    CappedPage(Shown(RangeLines(dates, files, q, r), q, r), RangeEntries(dates, files, q, r, false), q.offset, q.limit);
  }

  lemma CappedPage(all: seq<LogEntry>, page: seq<LogEntry>, offset: nat, limit: nat)
    requires limit >= 1 && page == NewestPage(Take(all, Max(offset + limit, READ_CAP)), offset, limit)
    ensures var cap := Max(offset + limit, READ_CAP);
      && (|all| <= cap ==> page == NewestPage(all, offset, limit))
      && (Distinct(all) ==> (page == NewestPage(all, offset, limit) <==> |all| <= cap))
  {
    NewestOfRangeExactlyWhen(all, offset, limit);
  }

  lemma DescendingPage(dates: seq<string>, files: map<string, seq<string>>, q: Query, r: Rules)
    requires dates != [] && !q.metrics && (|dates| >= 2 || q.window.Some?)
    ensures RangeEntries(dates, files, q, r, false) == NewestPage(
      Take(Shown(RangeLines(dates, files, q, r), q, r), Max(q.offset + q.limit, READ_CAP)), q.offset, q.limit)
  {
  }

  lemma CutPageDiffers(shown: seq<LogEntry>, cap: nat, offset: nat, limit: nat)
    requires limit >= 1 && offset < cap < |shown| && Distinct(shown)
    ensures NewestPage(Take(shown, cap), offset, limit) != NewestPage(shown, offset, limit)
  {
    PageAt(shown[..cap], offset, limit, 0);
    PageAt(shown, offset, limit, 0);
    assert shown[..cap][cap - 1 - offset] == shown[cap - 1 - offset];
    assert Differ(shown, cap - 1 - offset, |shown| - 1 - offset);
  }

  lemma {:induction false} ShownDrop(lines: seq<Dated>, k: nat, q: Query, r: Rules)
    requires q.window.None? && k <= |lines|
    ensures Shown(lines[k..], q, r) == Shown(lines, q, r)[k..]
  {
    if k == 0 {
      assert lines[0..] == lines;
    } else {
      ShownDrop(lines[1..], k - 1, q, r);
      assert lines[1..][k - 1..] == lines[k..];
      assert Shown(lines, q, r)[1..] == Shown(lines[1..], q, r);
    }
  }

  /** One ascending page over several days, without metrics and without a time window, is a slice. */
  lemma AscendingPageIsSlice(dates: seq<string>, files: map<string, seq<string>>, q: Query, r: Rules)
    requires |dates| >= 2 && !q.metrics && q.window.None?
    ensures RangeEntries(dates, files, q, r, true)
         == OldestPage(Shown(RangeLines(dates, files, q, r), q, r), q.offset, q.limit)
  {
    var lines := RangeLines(dates, files, q, r);
    if q.offset <= |lines| {
      ShownDrop(lines, q.offset, q, r);
    }
  }

  lemma SameAll(dates: seq<string>, files: map<string, seq<string>>, q: Query, q2: Query, r: Rules)
    requires q2.metrics == q.metrics && q2.window == q.window
    ensures Shown(RangeLines(dates, files, q2, r), q2, r) == Shown(RangeLines(dates, files, q, r), q, r)
  {
    SameRange(dates, files, q, q2, r);
    SameShown(RangeLines(dates, files, q, r), q, q2, r);
  }

  lemma PageAfterPages(all: seq<LogEntry>, offset: nat, limit: nat)
    requires offset <= |all|
    ensures Take(all, offset) + OldestPage(all, offset, limit) == Take(all, offset + limit)
    ensures |OldestPage(all, offset, limit)| >= limit <==> offset + limit <= |all|
  {
  }

  lemma NextPage(dates: seq<string>, files: map<string, seq<string>>, q: Query, offset: nat, r: Rules,
                 all: seq<LogEntry>)
    requires |dates| >= 2 && !q.metrics && q.window.None? && all == Shown(RangeLines(dates, files, q, r), q, r)
    ensures RangeEntries(dates, files, q.(offset := offset), r, true) == OldestPage(all, offset, q.limit)
  {
    AscendingPageIsSlice(dates, files, q.(offset := offset), r);
    SameAll(dates, files, q, q.(offset := offset), r);
  }

  method AskForPage(service: LogsService, dates: seq<string>, q: Query, offset: nat, ghost all: seq<LogEntry>)
    returns (page: LogsPage)
    requires |dates| >= 2 && !q.metrics && q.window.None? && q.limit >= 1
    requires all == Shown(RangeLines(dates, service.files, q, service.rules), q, service.rules)
    ensures page.entries == OldestPage(all, offset, q.limit)
    ensures page.hasMore <==> |page.entries| >= q.limit
  {
    var result := service.GetLogs(dates, q.(offset := offset), true);
    NextPage(dates, service.files, q, offset, service.rules, all);
    page := result.value;
  }

  /** A client that asks for the next page while hasMore holds gets every entry of the range exactly once, in
      order, and stops: every request but the last brings new entries. */
  method FollowHasMore(service: LogsService, dates: seq<string>, q: Query)
    returns (collected: seq<LogEntry>, requests: nat)
    requires |dates| >= 2 && !q.metrics && q.window.None? && q.limit >= 1
    ensures collected == Shown(RangeLines(dates, service.files, q, service.rules), q, service.rules)
    ensures requests <= |collected| + 1
  {
    ghost var all := Shown(RangeLines(dates, service.files, q, service.rules), q, service.rules);
    collected, requests := [], 0;
    var offset := 0;
    var more := true;
    while more
      invariant more ==> requests <= offset <= |all| && collected == Take(all, offset)
      invariant !more ==> requests <= |all| + 1 && collected == all
      decreases more, |all| - offset
    {
      var page := AskForPage(service, dates, q, offset, all);
      PageAfterPages(all, offset, q.limit);
      collected := collected + page.entries;
      more := page.hasMore;
      offset, requests := offset + q.limit, requests + 1;
    }
  }

  lemma SingleDayPage(date: string, files: map<string, seq<string>>, q: Query, r: Rules)
    requires !q.metrics && q.window.None?
    ensures RangeEntries([date], files, q, r, false) == LastN(TailEntries(date, Content(files, date), q, r), q.limit)
  {
  }

  predicate IsSuffix(part: seq<LogEntry>, whole: seq<LogEntry>) {
    |part| <= |whole| && part == whole[|whole| - |part|..]
  }

  /** The single-day page is a suffix of the day's entries, in file order, whatever the offset. */
  lemma SingleDayIsSuffix(date: string, files: map<string, seq<string>>, q: Query, r: Rules)
    requires !q.metrics && q.window.None?
    ensures IsSuffix(RangeEntries([date], files, q, r, false), DayEntries(date, Content(files, date), q, r))
  {
    SingleDayPage(date, files, q, r);
    LastOfTail(date, Content(files, date), q, r);
  }

  lemma LastOfTail(date: string, content: string, q: Query, r: Rules)
    requires !q.metrics
    ensures IsSuffix(LastN(TailEntries(date, content, q, r), q.limit), DayEntries(date, content, q, r))
  {
    TailIsSuffixOfDay(date, content, q, r);
    SuffixOfSuffix(TailEntries(date, content, q, r), DayEntries(date, content, q, r), q.limit);
  }

  lemma SuffixOfSuffix(tail: seq<LogEntry>, day: seq<LogEntry>, n: nat)
    requires IsSuffix(tail, day)
    ensures IsSuffix(LastN(tail, n), day)
  {
  }
}
