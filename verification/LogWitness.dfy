/** Days whose newest entry latest mode cannot see: many lines, and a last one that is longer than the tail. */
module LogWitness {
  import opened LogLines
  import opened LogsService
  import opened LogPaging
  import opened Results
  import Text

  predicate PlainLine(line: string) {
    '\n' !in line && !BlankLine(line)
  }

  /** A file of these lines, the last one without newline. */
  function FileOf(lines: seq<string>, last: string): string {
    Text.Join(lines + [last], '\n')
  }

  lemma {:induction false} JoinSnoc(lines: seq<string>, last: string)
    requires |lines| >= 1
    ensures FileOf(lines, last) == Text.Join(lines, '\n') + ['\n'] + last
  {
    var all := lines + [last];
    if |lines| == 1 {
      assert all[1..] == [last] && Text.Join(all[1..], '\n') == last;
    } else {
      assert all[1..] == lines[1..] + [last];
      JoinSnoc(lines[1..], last);
    }
  }

  /** A tail that starts inside the last line has no complete line. */
  lemma TailSeesNothing(lines: seq<string>, last: string)
    requires |lines| >= 1 && '\n' !in last && |last| >= TAIL_BYTES
    ensures |FileOf(lines, last)| > TAIL_BYTES && TailLines(FileOf(lines, last)) == []
  {
    JoinSnoc(lines, last);
    var content, seen := FileOf(lines, last), last[|last| - TAIL_BYTES..];
    assert content[|content| - TAIL_BYTES..] == seen;
    Text.SplitNoSep(seen, '\n');
  }

  lemma {:induction false} EveryLineIsShown(date: string, lines: seq<string>, q: Query, r: Rules)
    requires !q.metrics && q.window.None? && forall i :: 0 <= i < |lines| ==> !BlankLine(lines[i])
    ensures var shown := Shown(Relevant(date, lines, q, r), q, r);
      |shown| == |lines| && forall i :: 0 <= i < |lines| ==> shown[i] == r.normalize(lines[i], date)
  {
    if lines == [] {
    } else {
      EveryLineIsShown(date, lines[1..], q, r);
      FirstIsShown(date, lines, q, r);
      assert forall i :: 1 <= i < |lines| ==> lines[i] == lines[1..][i - 1];
    }
  }

  lemma FirstIsShown(date: string, lines: seq<string>, q: Query, r: Rules)
    requires !q.metrics && q.window.None? && lines != [] && !BlankLine(lines[0])
    ensures Shown(Relevant(date, lines, q, r), q, r)
         == [r.normalize(lines[0], date)] + Shown(Relevant(date, lines[1..], q, r), q, r)
  {
    var rest := Relevant(date, lines[1..], q, r);
    assert Relevant(date, lines, q, r) == [Dated(date, lines[0])] + rest;
    assert ([Dated(date, lines[0])] + rest)[1..] == rest;
  }

  /** The newest entry only. */
  function NewestOne(): Query {
    Query(1, 0, false, None)
  }

  lemma DayOfLines(date: string, lines: seq<string>, last: string, r: Rules)
    requires PlainLine(last) && forall i :: 0 <= i < |lines| ==> PlainLine(lines[i])
    ensures var day := DayEntries(date, FileOf(lines, last), NewestOne(), r);
      && |day| == |lines| + 1 && day[|lines|] == r.normalize(last, date)
      && forall i :: 0 <= i < |lines| ==> day[i] == r.normalize(lines[i], date)
  {
    var all := lines + [last];
    Text.SplitJoin(all, '\n');
    EveryLineIsShown(date, all, NewestOne(), r);
    assert forall i :: 0 <= i < |lines| ==> all[i] == lines[i];
  }

  lemma DayIsInexact(date: string, lines: seq<string>, last: string, r: Rules)
    requires PlainLine(last) && forall i :: 0 <= i < |lines| ==> PlainLine(lines[i])
    requires |lines| >= READ_CAP && |last| >= TAIL_BYTES
    ensures !DayIsExact(date, FileOf(lines, last), NewestOne(), r)
  {
    TailSeesNothing(lines, last);
    DayOfLines(date, lines, last, r);
    assert TailEntries(date, FileOf(lines, last), NewestOne(), r) == [];
  }

  lemma OneFile(date: string, content: string, r: Rules)
    ensures var files, q := map[date := [content]], NewestOne();
      && Content(files, date) == content
      && Collected([date], files, q, r) == DayView(date, content, q, r)
      && AllEntries([date], files, q, r) == DayEntries(date, content, q, r)
      && (NeededDaysExact([date], files, q, r) <==> DayIsExact(date, content, q, r))
  {
    var files, q := map[date := [content]], NewestOne();
    assert Concat([content]) == content + Concat([]) == content;
    OneView(Views([date], files, q, r), DayView(date, content, q, r));
    OneDay(Days([date], files, q, r), DayEntries(date, content, q, r));
    OneExact(Views([date], files, q, r), ExactDays([date], files, q, r), DayIsExact(date, content, q, r));
  }

  lemma OneView(views: seq<seq<LogEntry>>, view: seq<LogEntry>)
    requires views == [view]
    ensures Collect(views, 1, []) == view
  {
    assert views[1..] == [] && view + [] == view;
    assert Collect(views[1..], 1, view + []) == view;
  }

  lemma OneDay(days: seq<seq<LogEntry>>, day: seq<LogEntry>)
    requires days == [day]
    ensures Chronological(days) == day
  {
    assert days[1..] == [] && Chronological([]) + day == day;
  }

  lemma OneExact(views: seq<seq<LogEntry>>, exact: seq<bool>, whole: bool)
    requires |views| == 1 && exact == [whole]
    ensures NeededExact(views, exact, 1, 0) <==> whole
  {
  }

  /** With at least 10000 lines before a last line as long as the tail, latest mode's newest entry is line number
      10000, and not the last line. */
  lemma LongLastLineIsMissed(date: string, lines: seq<string>, last: string, r: Rules)
    requires PlainLine(last) && forall i :: 0 <= i < |lines| ==> PlainLine(lines[i])
    requires |lines| >= READ_CAP && |last| >= TAIL_BYTES
    ensures var files, q := map[date := [FileOf(lines, last)]], NewestOne();
      && NewestPage(Collected([date], files, q, r), 0, 1) == [r.normalize(lines[READ_CAP - 1], date)]
      && NewestPage(AllEntries([date], files, q, r), 0, 1) == [r.normalize(last, date)]
  {
    DayIsInexact(date, lines, last, r);
    TwoOfDay(date, lines, last, r);
    PagesOfInexact(date, FileOf(lines, last), r, r.normalize(lines[READ_CAP - 1], date), r.normalize(last, date));
  }

  lemma TwoOfDay(date: string, lines: seq<string>, last: string, r: Rules)
    requires PlainLine(last) && forall i :: 0 <= i < |lines| ==> PlainLine(lines[i])
    requires |lines| >= READ_CAP
    ensures var day := DayEntries(date, FileOf(lines, last), NewestOne(), r);
      && |day| > READ_CAP && day[|day| - 1] == r.normalize(last, date)
      && day[READ_CAP - 1] == r.normalize(lines[READ_CAP - 1], date)
  {
    DayOfLines(date, lines, last, r);
  }

  lemma PagesOfInexact(date: string, content: string, r: Rules, shown: LogEntry, newest: LogEntry)
    requires !DayIsExact(date, content, NewestOne(), r)
    requires var day := DayEntries(date, content, NewestOne(), r);
      |day| > READ_CAP && day[READ_CAP - 1] == shown && day[|day| - 1] == newest
    ensures var files, q := map[date := [content]], NewestOne();
      && NewestPage(Collected([date], files, q, r), 0, 1) == [shown]
      && NewestPage(AllEntries([date], files, q, r), 0, 1) == [newest]
  {
    OneFile(date, content, r);
    ViewOfInexact(date, content, r);
  }

  lemma ViewOfInexact(date: string, content: string, r: Rules)
    requires !DayIsExact(date, content, NewestOne(), r)
    ensures var day := DayEntries(date, content, NewestOne(), r);
      && |day| > READ_CAP
      && NewestPage(DayView(date, content, NewestOne(), r), 0, 1) == [day[READ_CAP - 1]]
      && NewestPage(day, 0, 1) == [day[|day| - 1]]
  {
    InexactView(date, content, NewestOne(), r);
    PagesOfDay(DayEntries(date, content, NewestOne(), r), DayView(date, content, NewestOne(), r));
  }

  lemma PagesOfDay(day: seq<LogEntry>, view: seq<LogEntry>)
    requires |day| > READ_CAP && view == LastN(day[..READ_CAP], 2)
    ensures NewestPage(view, 0, 1) == [day[READ_CAP - 1]] && NewestPage(day, 0, 1) == [day[|day| - 1]]
  {
    FirstOfPage(view);
    FirstOfPage(day);
  }

  lemma FirstOfPage(all: seq<LogEntry>)
    requires all != []
    ensures NewestPage(all, 0, 1) == [all[|all| - 1]]
  {
    PageAt(all, 0, 1, 0);
  }

  // ---------- numbered lines ----------

  function Numbered(n: nat): seq<string> {
    seq(n, k requires 0 <= k < n => Text.Decimal(k))
  }

  function LongLine(): string {
    seq(TAIL_BYTES, k => 'x')
  }

  /** Keeps the line as it is. */
  function PlainRules(): Rules {
    Rules(line => false, (line: string, date: string) => LogEntry(date, line, None), time => None)
  }

  lemma NumbersArePlain(n: nat)
    ensures PlainLine(Text.Decimal(n))
  {
    var s := Text.Decimal(n);
    assert Text.IsDigit(s[0]) && s[0] in s;
  }

  lemma LongLineIsPlain()
    ensures PlainLine(LongLine()) && |LongLine()| == TAIL_BYTES
  {
    assert LongLine()[0] == 'x' && LongLine()[0] in LongLine();
  }

  lemma NumbersDiffer(i: nat, j: nat)
    requires i != j
    ensures Text.Decimal(i) != Text.Decimal(j)
  {
    Text.NumeralOfDecimal(i);
    Text.NumeralOfDecimal(j);
  }

  lemma NumbersAreNotLong(i: nat)
    ensures Text.Decimal(i) != LongLine()
  {
    assert Text.IsDigit(Text.Decimal(i)[0]) && LongLine()[0] == 'x';
  }

  /** A concrete day of pairwise different entries on which latest mode gives the wrong page. */
  lemma LatestMissesTheNewest(date: string)
    ensures var files, q, r := map[date := [FileOf(Numbered(READ_CAP), LongLine())]], NewestOne(), PlainRules();
      && Distinct(AllEntries([date], files, q, r))
      && !NeededDaysExact([date], files, q, r)
      && NewestPage(Collected([date], files, q, r), 0, 1) != NewestPage(AllEntries([date], files, q, r), 0, 1)
  {
    var lines, last, q, r := Numbered(READ_CAP), LongLine(), NewestOne(), PlainRules();
    var content := FileOf(lines, last);
    forall i | 0 <= i < |lines|
      ensures PlainLine(lines[i])
    {
      NumbersArePlain(i);
    }
    LongLineIsPlain();
    OneFile(date, content, r);
    DayIsInexact(date, lines, last, r);
    NumberedDiffer(date);
    LatestExactlyWhen([date], map[date := [content]], q, r);
  }

  // ---------- the descending range ----------

  lemma TwoDays(d1: string, d2: string, content: string, r: Rules)
    requires d1 != d2
    ensures var files, q := map[d1 := [content]], NewestOne();
      Shown(RangeLines([d1, d2], files, q, r), q, r) == DayEntries(d1, content, q, r)
  {
    var files, q := map[d1 := [content]], NewestOne();
    assert Concat([content]) == content + Concat([]) == content;
    assert [d1, d2] == [d1] + [d2];
    RangeLinesAppend([d1], [d2], files, q, r);
    OneDayRange(d1, files, q, r);
    OneDayRange(d2, files, q, r);
    NoLines(d2, r);
    assert DayLines(d1, content, q, r) + [] == DayLines(d1, content, q, r);
  }

  lemma NoLines(date: string, r: Rules)
    ensures DayLines(date, "", NewestOne(), r) == []
  {
    assert Text.Split("", '\n') == [""] && BlankLine("");
    OneRelevant(date, "", NewestOne(), r);
  }

  /** With at least 10000 lines before the last one, the newest entry of a descending range is line number 10000. */
  lemma LongRangeIsCut(d1: string, d2: string, lines: seq<string>, last: string, r: Rules)
    requires d1 != d2 && PlainLine(last) && forall i :: 0 <= i < |lines| ==> PlainLine(lines[i])
    requires |lines| >= READ_CAP
    ensures var files, q := map[d1 := [FileOf(lines, last)]], NewestOne();
      && RangeEntries([d1, d2], files, q, r, false) == [r.normalize(lines[READ_CAP - 1], d1)]
      && NewestPage(Shown(RangeLines([d1, d2], files, q, r), q, r), 0, 1) == [r.normalize(last, d1)]
  {
    TwoOfDay(d1, lines, last, r);
    PagesOfTwoDays(d1, d2, FileOf(lines, last), r, r.normalize(lines[READ_CAP - 1], d1), r.normalize(last, d1));
  }

  lemma PagesOfTwoDays(d1: string, d2: string, content: string, r: Rules, shown: LogEntry, newest: LogEntry)
    requires d1 != d2
    requires var day := DayEntries(d1, content, NewestOne(), r);
      |day| > READ_CAP && day[READ_CAP - 1] == shown && day[|day| - 1] == newest
    ensures var files, q := map[d1 := [content]], NewestOne();
      && RangeEntries([d1, d2], files, q, r, false) == [shown]
      && NewestPage(Shown(RangeLines([d1, d2], files, q, r), q, r), 0, 1) == [newest]
  {
    TwoDays(d1, d2, content, r);
    DescendingPage([d1, d2], map[d1 := [content]], NewestOne(), r);
    CutPages(DayEntries(d1, content, NewestOne(), r));
  }

  lemma CutPages(day: seq<LogEntry>)
    requires |day| > READ_CAP
    ensures NewestPage(Take(day, READ_CAP), 0, 1) == [day[READ_CAP - 1]] && NewestPage(day, 0, 1) == [day[|day| - 1]]
  {
    FirstOfPage(Take(day, READ_CAP));
    FirstOfPage(day);
  }

  /** A concrete range of pairwise different entries on which the descending page is wrong. */
  lemma RangeMissesTheNewest(d1: string, d2: string)
    requires d1 != d2
    ensures var files, q, r := map[d1 := [FileOf(Numbered(READ_CAP), LongLine())]], NewestOne(), PlainRules();
      var all := Shown(RangeLines([d1, d2], files, q, r), q, r);
      && Distinct(all) && |all| > READ_CAP
      && RangeEntries([d1, d2], files, q, r, false) != NewestPage(all, 0, 1)
  {
    var content := FileOf(Numbered(READ_CAP), LongLine());
    forall i | 0 <= i < READ_CAP
      ensures PlainLine(Numbered(READ_CAP)[i])
    {
      NumbersArePlain(i);
    }
    LongLineIsPlain();
    NumberedDiffer(d1);
    TwoOfDay(d1, Numbered(READ_CAP), LongLine(), PlainRules());
    WrongPageOfTwoDays(d1, d2, content, PlainRules());
  }

  lemma WrongPageOfTwoDays(d1: string, d2: string, content: string, r: Rules)
    requires d1 != d2
    requires var day := DayEntries(d1, content, NewestOne(), r); |day| > READ_CAP && Distinct(day)
    ensures var files, q := map[d1 := [content]], NewestOne();
      var all := Shown(RangeLines([d1, d2], files, q, r), q, r);
      && Distinct(all) && |all| > READ_CAP
      && RangeEntries([d1, d2], files, q, r, false) != NewestPage(all, 0, 1)
  {
    TwoDays(d1, d2, content, r);
    DescendingRangeExactlyWhen([d1, d2], map[d1 := [content]], NewestOne(), r);
  }

  lemma NumberedDiffer(date: string)
    requires forall i :: 0 <= i < READ_CAP ==> PlainLine(Numbered(READ_CAP)[i])
    requires PlainLine(LongLine())
    ensures Distinct(DayEntries(date, FileOf(Numbered(READ_CAP), LongLine()), NewestOne(), PlainRules()))
  {
    var day := DayEntries(date, FileOf(Numbered(READ_CAP), LongLine()), NewestOne(), PlainRules());
    DayOfLines(date, Numbered(READ_CAP), LongLine(), PlainRules());
    forall i, j | 0 <= i < j < |day|
      ensures Differ(day, i, j)
    {
      if j < READ_CAP {
        NumbersDiffer(i, j);
      } else {
        NumbersAreNotLong(i);
      }
    }
  }
}
