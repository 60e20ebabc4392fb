/** Character-level text helpers shared by the `.env` editor and the log reader:
    splitting on a separator, joining, trimming, and decimal numerals. */
module Text {

  /** The white space that Go's strings.TrimSpace removes (Unicode White_Space). */
  predicate IsSpace(c: char) {
    || c == '\t' || c == '\n' || c == '\U{000B}' || c == '\U{000C}' || c == '\r' || c == ' '
    || c == '\U{0085}' || c == '\U{00A0}' || c == '\U{1680}'
    || '\U{2000}' <= c <= '\U{200A}'
    || c == '\U{2028}' || c == '\U{2029}' || c == '\U{202F}' || c == '\U{205F}' || c == '\U{3000}'
  }

  // ---------- splitting and joining ----------

  /** strings.Split / String.prototype.split for a one-character separator. */
  function Split(s: string, sep: char): (pieces: seq<string>)
    ensures |pieces| >= 1
  {
    if s == "" then [""]
    else
      var rest := Split(s[1..], sep);
      if s[0] == sep then [""] + rest else Prepend(s[0], rest)
  }

  /** One more character at the front of the first piece. */
  function Prepend(c: char, pieces: seq<string>): (r: seq<string>)
    requires |pieces| >= 1
    ensures |r| == |pieces|
  {
    [[c] + pieces[0]] + pieces[1..]
  }

  function Join(pieces: seq<string>, sep: char): string
    requires |pieces| >= 1
  {
    if |pieces| == 1 then pieces[0] else pieces[0] + [sep] + Join(pieces[1..], sep)
  }

  /** Two piece lists joined at a cut that may fall inside a piece. */
  function Glue(p: seq<string>, q: seq<string>): (r: seq<string>)
    requires |p| >= 1 && |q| >= 1
  {
    p[..|p| - 1] + [p[|p| - 1] + q[0]] + q[1..]
  }

  lemma GlueCons(head: string, p: seq<string>, q: seq<string>)
    requires |p| >= 1 && |q| >= 1
    ensures Glue([head] + p, q) == [head] + Glue(p, q)
  {
    var r := [head] + p;
    assert r[..|r| - 1] == [head] + p[..|p| - 1];
  }

  lemma GluePrepend(c: char, p: seq<string>, q: seq<string>)
    requires |p| >= 1 && |q| >= 1
    ensures Glue(Prepend(c, p), q) == Prepend(c, Glue(p, q))
  {
    if |p| == 1 {
      assert [c] + (p[0] + q[0]) == ([c] + p[0]) + q[0];
    } else {
      assert Prepend(c, p)[|p| - 1] == p[|p| - 1];
      assert Glue(p, q)[0] == p[0];
    }
  }

  /** Splitting a concatenation is splitting both halves and gluing at the seam. */
  lemma {:induction false} SplitConcat(a: string, b: string, sep: char)
    ensures Split(a + b, sep) == Glue(Split(a, sep), Split(b, sep))
  {
    var q := Split(b, sep);
    if a == "" {
      assert a + b == b;
      assert "" + q[0] == q[0];
      assert Glue([""], q) == q;
    } else {
      var p := Split(a[1..], sep);
      SplitConcat(a[1..], b, sep);
      assert (a + b)[1..] == a[1..] + b && (a + b)[0] == a[0];
      if a[0] == sep {
        GlueCons("", p, q);
        assert Split(a, sep) == [""] + p;
        assert Split(a + b, sep) == [""] + Glue(p, q);
      } else {
        GluePrepend(a[0], p, q);
        assert Split(a, sep) == Prepend(a[0], p);
        assert Split(a + b, sep) == Prepend(a[0], Glue(p, q));
      }
    }
  }

  lemma {:induction false} SplitNoSep(s: string, sep: char)
    requires sep !in s
    ensures Split(s, sep) == [s]
  {
    if s == "" {
    } else {
      SplitNoSep(s[1..], sep);
      assert [s[0]] + s[1..] == s;
    }
  }

  lemma SplitAtSep(a: string, b: string, sep: char)
    ensures Split(a + [sep] + b, sep) == Split(a, sep) + Split(b, sep)
  {
    assert ([sep] + b)[1..] == b;
    assert Split([sep] + b, sep) == [""] + Split(b, sep);
    assert a + [sep] + b == a + ([sep] + b);
    SplitConcat(a, [sep] + b, sep);
    var p := Split(a, sep);
    assert p[|p| - 1] + "" == p[|p| - 1];
    assert p[..|p| - 1] + [p[|p| - 1] + ""] == p;
  }

  lemma {:induction false} PiecesHaveNoSep(s: string, sep: char)
    ensures forall i :: 0 <= i < |Split(s, sep)| ==> sep !in Split(s, sep)[i]
  {
    if s == "" {
    } else {
      PiecesHaveNoSep(s[1..], sep);
    }
  }

  lemma {:induction false} JoinSplit(s: string, sep: char)
    ensures Join(Split(s, sep), sep) == s
  {
    if s == "" {
    } else {
      var rest := Split(s[1..], sep);
      JoinSplit(s[1..], sep);
      if s[0] == sep {
        assert ([""] + rest)[1..] == rest;
      } else {
        var head := [s[0]] + rest[0];
        assert Split(s, sep) == [head] + rest[1..];
        assert Split(s, sep)[1..] == rest[1..];
      }
    }
  }

  lemma {:induction false} SplitJoin(pieces: seq<string>, sep: char)
    requires |pieces| >= 1
    requires forall i :: 0 <= i < |pieces| ==> sep !in pieces[i]
    ensures Split(Join(pieces, sep), sep) == pieces
  {
    SplitNoSep(pieces[0], sep);
    if |pieces| == 1 {
    } else {
      SplitJoin(pieces[1..], sep);
      SplitAtSep(pieces[0], Join(pieces[1..], sep), sep);
    }
  }

  // ---------- trimming ----------

  function TrimLeft(s: string): string {
    if s != "" && IsSpace(s[0]) then TrimLeft(s[1..]) else s
  }

  function TrimRight(s: string): string {
    if s != "" && IsSpace(s[|s| - 1]) then TrimRight(s[..|s| - 1]) else s
  }

  function Trim(s: string): string {
    TrimRight(TrimLeft(s))
  }

  predicate Trimmed(s: string) {
    s != "" ==> !IsSpace(s[0]) && !IsSpace(s[|s| - 1])
  }

  lemma {:induction false} TrimRightKeepsHead(s: string)
    ensures TrimRight(s) <= s
    ensures var r := TrimRight(s); r != "" ==> !IsSpace(r[|r| - 1])
  {
    if s != "" && IsSpace(s[|s| - 1]) {
      TrimRightKeepsHead(s[..|s| - 1]);
    }
  }

  lemma {:induction false} TrimLeftHead(s: string)
    ensures var r := TrimLeft(s); r != "" ==> !IsSpace(r[0])
  {
    if s != "" && IsSpace(s[0]) {
      TrimLeftHead(s[1..]);
    }
  }

  lemma TrimIsTrimmed(s: string)
    ensures Trimmed(Trim(s))
  {
    TrimLeftHead(s);
    TrimRightKeepsHead(TrimLeft(s));
  }

  /** Trimming only drops characters. */
  lemma {:induction false} TrimOnlyDrops(s: string, c: char)
    requires c !in s
    ensures c !in Trim(s)
  {
    TrimLeftOnlyDrops(s, c);
    TrimRightKeepsHead(TrimLeft(s));
  }

  lemma {:induction false} TrimLeftOnlyDrops(s: string, c: char)
    requires c !in s
    ensures c !in TrimLeft(s)
  {
    if s != "" && IsSpace(s[0]) {
      TrimLeftOnlyDrops(s[1..], c);
    }
  }

  lemma TrimOfTrimmed(s: string)
    requires Trimmed(s)
    ensures Trim(s) == s
  {
  }

  /** Text that starts outside white space keeps its start under Trim. */
  lemma {:induction false} TrimKeepsSolidStart(s: string)
    requires s != "" && !IsSpace(s[0])
    ensures var t := Trim(s); t != "" && t[0] == s[0]
  {
    TrimRightKeepsHead(s);
    SolidNotErased(s);
  }

  lemma {:induction false} SolidNotErased(s: string)
    requires s != "" && !IsSpace(s[0])
    ensures TrimRight(s) != ""
  {
    if IsSpace(s[|s| - 1]) {
      SolidNotErased(s[..|s| - 1]);
    }
  }

  predicate Blank(s: string) {
    forall c :: c in s ==> IsSpace(c)
  }

  /** A blank text trims to nothing, and conversely. */
  lemma {:induction false} TrimEmpty(s: string)
    ensures Trim(s) == "" <==> Blank(s)
  {
    if s == "" {
    } else if IsSpace(s[0]) {
      TrimEmpty(s[1..]);
      assert s == [s[0]] + s[1..];
    } else {
      TrimKeepsSolidStart(s);
    }
  }

  lemma {:induction false} TrimLeftDrops(front: string, s: string)
    requires Blank(front)
    ensures TrimLeft(front + s) == TrimLeft(s)
  {
    if front == "" {
      assert front + s == s;
    } else {
      assert front[0] in front && (front + s)[1..] == front[1..] + s;
      TrimLeftDrops(front[1..], s);
    }
  }

  lemma {:induction false} TrimRightDrops(s: string, back: string)
    requires Blank(back)
    ensures TrimRight(s + back) == TrimRight(s)
  {
    if back == "" {
      assert s + back == s;
    } else {
      var last := |back| - 1;
      assert back[last] in back && (s + back)[..|s + back| - 1] == s + back[..last];
      TrimRightDrops(s, back[..last]);
    }
  }

  /** Trimming takes away white space around a trimmed text, and nothing else. */
  lemma TrimIs(front: string, s: string, back: string)
    requires Blank(front) && Blank(back) && Trimmed(s)
    ensures Trim(front + s + back) == s
  {
    assert front + s + back == front + (s + back);
    TrimLeftDrops(front, s + back);
    if s == "" {
      assert s + back == back;
      TrimEmpty(back);
    } else {
      assert (s + back)[0] == s[0];
      TrimRightDrops(s, back);
    }
  }

  /** Every piece of a blank text is blank. */
  lemma {:induction false} PiecesOfBlank(s: string, sep: char)
    requires Blank(s)
    ensures forall i :: 0 <= i < |Split(s, sep)| ==> Blank(Split(s, sep)[i])
  {
    if s == "" {
    } else {
      PiecesOfBlank(s[1..], sep);
      assert s[0] in s;
    }
  }

  /** The index of the first `c`, or |s| when there is none. */
  function IndexOf(s: string, c: char): (i: nat)
    ensures i <= |s|
    ensures i < |s| ==> s[i] == c
    ensures forall j :: 0 <= j < i ==> s[j] != c
  {
    if s == "" || s[0] == c then 0 else 1 + IndexOf(s[1..], c)
  }

  lemma {:induction false} IndexOfAfter(a: string, b: string, c: char)
    requires c !in a
    ensures IndexOf(a + b, c) == |a| + IndexOf(b, c)
  {
    if a == "" {
      assert a + b == b;
    } else {
      assert a[0] in a;
      assert (a + b)[1..] == a[1..] + b;
      IndexOfAfter(a[1..], b, c);
    }
  }

  // ---------- decimal numerals ----------

  function Digit(d: nat): char
    requires d < 10
  {
    "0123456789"[d]
  }

  predicate IsDigit(c: char) {
    '0' <= c <= '9'
  }

  function DigitValue(c: char): nat
    requires IsDigit(c)
  {
    c as int - '0' as int
  }

  /** The decimal numeral of n, as a number is printed into a string. */
  function Decimal(n: nat): (s: string)
    ensures |s| >= 1
    ensures forall i :: 0 <= i < |s| ==> IsDigit(s[i])
  {
    if n < 10 then [Digit(n)] else Decimal(n / 10) + [Digit(n % 10)]
  }

  /** The value of a digit string. */
  function Numeral(s: string): nat
    requires forall i :: 0 <= i < |s| ==> IsDigit(s[i])
  {
    if s == "" then 0 else Numeral(s[..|s| - 1]) * 10 + DigitValue(s[|s| - 1])
  }

  lemma {:induction false} NumeralOfDecimal(n: nat)
    ensures Numeral(Decimal(n)) == n
  {
    if n < 10 {
      assert Decimal(n)[..0] == "";
    } else {
      NumeralOfDecimal(n / 10);
      assert Decimal(n)[..|Decimal(n)| - 1] == Decimal(n / 10);
    }
  }
}
