/** What version numbers mean, and exactly when each operation on published bots and instances goes through, with which
    error it is refused otherwise, and what it changes. */
module BotRules {
  import opened CustomBots
  import opened Versions
  import opened Results
  import Text

  // ---------- version numbers ----------

  function Printed(t: Triple): string {
    Text.Decimal(t.major) + "." + Text.Decimal(t.minor) + "." + Text.Decimal(t.patch)
  }

  lemma {:induction false} LeadingDigit(n: nat)
    ensures n >= 1 ==> Text.Decimal(n)[0] != '0'
    ensures n >= 10 ==> |Text.Decimal(n)| >= 2
  {
    if n < 10 {
    } else {
      LeadingDigit(n / 10);
    }
  }

  lemma {:induction false} NumeralIsPositive(s: string)
    requires Digits(s) && s[0] != '0'
    ensures Text.Numeral(s) >= 1
  {
    if |s| == 1 {
      assert s[..0] == "";
    } else {
      NumeralIsPositive(s[..|s| - 1]);
    }
  }

  /** A digit string without a leading zero is the numeral of its value. */
  lemma {:induction false} DecimalOfNumeral(s: string)
    requires Digits(s) && (|s| > 1 ==> s[0] != '0')
    ensures Text.Decimal(Text.Numeral(s)) == s
  {
    if |s| == 1 {
      OneDigit(s);
    } else {
      var init := InitOfDigits(s);
      NumeralIsPositive(init);
      DecimalOfNumeral(init);
      LastDigit(Text.Numeral(init), s[|s| - 1]);
    }
  }

  lemma OneDigit(s: string)
    requires Digits(s) && |s| == 1
    ensures Text.Decimal(Text.Numeral(s)) == s
  {
    assert s[..0] == "";
  }

  lemma InitOfDigits(s: string) returns (init: string)
    requires Digits(s) && |s| >= 2
    ensures Digits(init) && init[0] == s[0] && |init| == |s| - 1 && s == init + [s[|s| - 1]]
    ensures Text.Numeral(s) == Text.Numeral(init) * 10 + Text.DigitValue(s[|s| - 1])
  {
    init := s[..|s| - 1];
  }

  lemma LastDigit(n: nat, c: char)
    requires n >= 1 && Text.IsDigit(c)
    ensures Text.Decimal(n * 10 + Text.DigitValue(c)) == Text.Decimal(n) + [c]
  {
  }

  lemma DecimalIsPart(n: nat)
    requires n <= MAX_SAFE_INTEGER
    ensures ValidPart(Text.Decimal(n)) && Text.Numeral(Text.Decimal(n)) == n
  {
    LeadingDigit(n);
    Text.NumeralOfDecimal(n);
    if n < 10 {
      assert |Text.Decimal(n)| == 1;
    }
  }

  /** Three texts without a dot, joined by dots, are split into these three. */
  lemma ThreeParts(a: string, b: string, c: string)
    requires '.' !in a && '.' !in b && '.' !in c
    ensures Text.Split(a + "." + b + "." + c, '.') == [a, b, c]
  {
    Text.SplitNoSep(a, '.');
    Text.SplitNoSep(b, '.');
    Text.SplitNoSep(c, '.');
    Text.SplitAtSep(a, b, '.');
    Text.SplitAtSep(a + "." + b, c, '.');
  }

  lemma DigitsHaveNoDot(s: string)
    requires Digits(s)
    ensures '.' !in s
  {
  }

  lemma ThreeJoined(a: string, b: string, c: string)
    ensures Text.Join([a, b, c], '.') == a + "." + b + "." + c
  {
    assert [a, b, c][1..] == [b, c] && [b, c][1..] == [c];
    assert Text.Join([b, c], '.') == b + "." + c;
    assert a + ['.'] + (b + "." + c) == a + "." + b + "." + c;
  }

  /** A version can be published exactly when it is three digit strings with dots between them. */
  lemma PatternIs(v: string)
    ensures HasPattern(v) <==> exists a, b, c :: Digits(a) && Digits(b) && Digits(c) && v == a + "." + b + "." + c
  {
    if HasPattern(v) {
      var p := Text.Split(v, '.');
      Text.JoinSplit(v, '.');
      assert p == [p[0], p[1], p[2]];
      ThreeJoined(p[0], p[1], p[2]);
    }
    if a, b, c :| Digits(a) && Digits(b) && Digits(c) && v == a + "." + b + "." + c {
      ThreeParts(a, b, c);
    }
  }

  /** A version parses to three numbers exactly when it is these numbers printed, not too long and not too large. */
  lemma ParseIs(v: string, t: Triple)
    ensures Parse(v) == Some(t) <==>
      && v == Printed(t) && |v| <= 256
      && t.major <= MAX_SAFE_INTEGER && t.minor <= MAX_SAFE_INTEGER && t.patch <= MAX_SAFE_INTEGER
  {
    if Parse(v) == Some(t) {
      ParsedIsPrinted(v);
    }
    if v == Printed(t) && |v| <= 256
      && t.major <= MAX_SAFE_INTEGER && t.minor <= MAX_SAFE_INTEGER && t.patch <= MAX_SAFE_INTEGER {
      PrintedParses(t);
    }
  }

  lemma ParsedIsPrinted(v: string)
    requires Parse(v).Some?
    ensures v == Printed(Parse(v).value)
  {
    var p := Text.Split(v, '.');
    Text.JoinSplit(v, '.');
    assert p == [p[0], p[1], p[2]];
    ThreeJoined(p[0], p[1], p[2]);
    DecimalOfNumeral(p[0]);
    DecimalOfNumeral(p[1]);
    DecimalOfNumeral(p[2]);
  }

  lemma PrintedParses(t: Triple)
    requires t.major <= MAX_SAFE_INTEGER && t.minor <= MAX_SAFE_INTEGER && t.patch <= MAX_SAFE_INTEGER
    requires |Printed(t)| <= 256
    ensures Parse(Printed(t)) == Some(t)
  {
    var a, b, c := Text.Decimal(t.major), Text.Decimal(t.minor), Text.Decimal(t.patch);
    DecimalIsPart(t.major);
    DecimalIsPart(t.minor);
    DecimalIsPart(t.patch);
    DigitsHaveNoDot(a);
    DigitsHaveNoDot(b);
    DigitsHaveNoDot(c);
    ThreeParts(a, b, c);
  }

  /** Precedence: the first of major, minor and patch that differs decides, as a number; it is a strict total order, and
      1.0.0 < 1.0.1 < 1.9.0 < 1.10.0 < 2.0.0. */
  lemma PrecedenceIs(a: Triple, b: Triple, c: Triple)
    ensures a.major != b.major ==> (Precedes(a, b) <==> a.major < b.major)
    ensures a.major == b.major && a.minor != b.minor ==> (Precedes(a, b) <==> a.minor < b.minor)
    ensures a.major == b.major && a.minor == b.minor ==> (Precedes(a, b) <==> a.patch < b.patch)
    ensures !(Precedes(a, b) && Precedes(b, a)) && (Precedes(a, b) && Precedes(b, c) ==> Precedes(a, c))
    ensures a == b || Precedes(a, b) || Precedes(b, a)
    ensures Precedes(Triple(1, 0, 0), Triple(1, 0, 1)) && Precedes(Triple(1, 0, 1), Triple(1, 9, 0))
    ensures Precedes(Triple(1, 9, 0), Triple(1, 10, 0)) && Precedes(Triple(1, 10, 0), Triple(2, 0, 0))
  {
  }

  /** A version is newer when it parses, the current one parses, and the current one precedes it. */
  lemma NewerIs(current: string, next: string)
    ensures IsNewer(current, next) == Some(true) <==>
      Parse(current).Some? && Parse(next).Some? && Precedes(Parse(current).value, Parse(next).value)
    ensures IsNewer(current, next) == None <==> Parse(current).None? || Parse(next).None?
  {
  }

  // ---------- publishing ----------

  ghost predicate HasName(t: Tables, name: string) {
    exists r :: r in t.rows && r.name == name
  }

  ghost predicate HasVersion(t: Tables, name: string, version: string) {
    exists r :: r in t.rows && r.name == name && r.version == version
  }

  ghost predicate Owns(t: Tables, userId: string, name: string) {
    HasName(t, name) && forall r :: r in t.rows && r.name == name ==> r.userId == userId
  }

  ghost predicate NameInUse(t: Tables, name: string) {
    exists r, b :: r in t.rows && r.name == name && b in t.instances && b.customBotId == r.id
  }

  lemma OwnerIs(t: Tables, userId: string, name: string)
    requires Inv(t)
    ensures CheckOwner(t.rows, userId, name) ==
      if !HasName(t, name) then Some(Missing) else if Owns(t, userId, name) then None else Some(NotOwner)
  {
    LatestIsMaximum(t.rows, name);
  }

  /** A new name: refused when the config or the ZIP is, or when the name exists; else there is one row more. */
  lemma CreateDoes(t: Tables, op: Operation)
    requires op.Create?
    ensures Refusal(t, op) ==
      if !HasPattern(op.version) || !op.wellFormed then Some(Rejected)
      else if HasName(t, op.name) then Some(AlreadyExists)
      else if !op.zipped then Some(Rejected)
      else None
    ensures Refusal(t, op).None? ==>
      Next(t, op) == Tables(t.rows + [Row(op.id, op.userId, op.name, op.version, op.at)], t.instances)
    ensures Refusal(t, op).Some? ==> Next(t, op) == t
  {
  }

  /** A new version: which check refuses it, in the order of the checks; else there is one row more. */
  lemma UpdateDoes(t: Tables, op: Operation)
    requires Inv(t) && op.Update?
    ensures Refusal(t, op) ==
      if !HasPattern(op.version) || !op.wellFormed then Some(Rejected)
      else if !HasName(t, op.name) then Some(Missing)
      else if !Owns(t, op.userId, op.name) then Some(NotOwner)
      else
        var latest := Latest(t.rows, op.name).value.version;
        if IsNewer(latest, op.version) == None then Some(Rejected)
        else if IsNewer(latest, op.version) != Some(true) then Some(NotNewer)
        else if !op.zipped then Some(Rejected)
        else None
    ensures Refusal(t, op).None? ==>
      Next(t, op) == Tables(t.rows + [Row(op.id, op.userId, op.name, op.version, op.at)], t.instances)
    ensures Refusal(t, op).Some? ==> Next(t, op) == t
  {
    OwnerIs(t, op.userId, op.name);
    LatestIsMaximum(t.rows, op.name);
  }

  lemma DeleteVersionDoes(t: Tables, op: Operation)
    requires Inv(t) && op.DeleteVersion?
    ensures Refusal(t, op) ==
      if !HasName(t, op.name) then Some(Missing)
      else if !Owns(t, op.userId, op.name) then Some(NotOwner)
      else if !HasVersion(t, op.name, op.version) then Some(Missing)
      else if InUseBy(t.instances, Find(t.rows, op.name, op.version).value.id) then Some(InUse)
      else None
    ensures Next(t, op).instances == t.instances
    ensures Refusal(t, op).Some? ==> Next(t, op) == t
    ensures Refusal(t, op).None? ==>
      forall r :: r in Next(t, op).rows <==> r in t.rows && !(r.name == op.name && r.version == op.version)
  {
    OwnerIs(t, op.userId, op.name);
    if Refusal(t, op).None? {
      OneVersionGoes(t, op);
    }
  }

  lemma OneVersionGoes(t: Tables, op: Operation)
    requires Inv(t) && op.DeleteVersion? && Refusal(t, op).None?
    ensures forall r :: r in Next(t, op).rows <==> r in t.rows && !(r.name == op.name && r.version == op.version)
  {
    OwnerIs(t, op.userId, op.name);
    var found := Find(t.rows, op.name, op.version).value;
    forall r | r in t.rows
      ensures r.userId == op.userId && r.id == found.id <==> r.name == op.name && r.version == op.version
    {
      if r.id == found.id {
        SameIdSameRow(t.rows, r, found);
      }
      if r.name == op.name && r.version == op.version {
        SameIdSameRow(t.rows, r, found);
      }
    }
  }

  lemma DeleteAllDoes(t: Tables, op: Operation)
    requires Inv(t) && op.DeleteAll?
    ensures Refusal(t, op) ==
      if !HasName(t, op.name) then Some(Missing)
      else if !Owns(t, op.userId, op.name) then Some(NotOwner)
      else if NameInUse(t, op.name) then Some(InUse)
      else None
    ensures Next(t, op).instances == t.instances
    ensures Refusal(t, op).Some? ==> Next(t, op) == t
    ensures Refusal(t, op).None? ==> forall r :: r in Next(t, op).rows <==> r in t.rows && r.name != op.name
  {
    OwnerIs(t, op.userId, op.name);
  }

  // ---------- instances ----------

  /** A deployment goes through exactly when the config is accepted and the named version, which semver must accept, is
      published; the instance is the deployer's and refers to that version's row. */
  lemma DeployDoes(t: Tables, op: Operation)
    requires op.Deploy?
    ensures Refusal(t, op) ==
      if op.accepted && Parse(op.version).Some? && HasVersion(t, op.name, op.version) then None else Some(Rejected)
    ensures Refusal(t, op).Some? ==> Next(t, op) == t
    ensures Refusal(t, op).None? ==>
      && Next(t, op).rows == t.rows && |Next(t, op).instances| == |t.instances| + 1
      && Next(t, op).instances[..|t.instances|] == t.instances
      && var b := Next(t, op).instances[|t.instances|];
         && b.id == op.bot && b.userId == op.userId && b.name == op.name && b.version == op.version
         && exists r :: r in t.rows && r.name == op.name && r.version == op.version && r.id == b.customBotId
  {
  }

  ghost predicate HasInstance(t: Tables, bot: string, userId: string) {
    exists b :: b in t.instances && b.id == bot && b.userId == userId
  }

  /** An update of an instance goes through exactly when the config is accepted, the named version is published, the
      instance is the caller's, and the major version stays. */
  lemma UpdateInstanceGoesThroughExactlyWhen(t: Tables, op: Operation, b: Instance)
    requires Inv(t) && op.UpdateInstance? && b in t.instances && b.id == op.bot
    ensures Refusal(t, op) ==
      if !op.accepted || Parse(op.version).None? || !HasVersion(t, op.name, op.version) then Some(Rejected)
      else if b.userId != op.userId then Some(Missing)
      else if Parse(b.version).value.major != Parse(op.version).value.major then Some(MajorChange)
      else None
  {
    assert Refers(b, t.rows);
    var found := FindInstance(t.instances, op.userId, op.bot);
    if found.Some? {
      SameIdSameInstance(t, b, found.value);
    }
  }

  lemma UnknownInstance(t: Tables, op: Operation)
    requires op.UpdateInstance? || op.RemoveInstance?
    requires !HasInstance(t, op.bot, op.userId)
    ensures Refusal(t, op).Some? && Next(t, op) == t
    ensures op.RemoveInstance? ==> Refusal(t, op) == Some(Missing)
  {
  }

  /** What it changes: name and version of that one instance, and its reference when the version differs. */
  lemma UpdateInstanceDoes(t: Tables, op: Operation, b: Instance)
    requires Inv(t) && op.UpdateInstance? && Refusal(t, op).None? && b in t.instances && b.id == op.bot
    ensures var after := Next(t, op).instances;
      && Next(t, op).rows == t.rows && |after| == |t.instances|
      && forall i :: 0 <= i < |after| ==>
           if t.instances[i] == b
           then
             && after[i].id == b.id && after[i].userId == b.userId
             && after[i].name == op.name && after[i].version == op.version
             && (Parse(b.version) == Parse(op.version) ==> after[i].customBotId == b.customBotId)
             && (Parse(b.version) != Parse(op.version) ==>
                   exists r ::
                     r in t.rows && r.name == op.name && r.version == op.version && r.id == after[i].customBotId)
           else after[i] == t.instances[i]
  {
    var found := FindInstance(t.instances, op.userId, op.bot).value;
    SameIdSameInstance(t, b, found);
    forall i | 0 <= i < |t.instances| && t.instances[i] != b
      ensures t.instances[i].id != b.id
    {
      if t.instances[i].id == b.id {
        SameIdSameInstance(t, b, t.instances[i]);
      }
    }
  }

  /** A removal goes through for the instance's user, and takes exactly that instance. */
  lemma RemoveDoes(t: Tables, op: Operation, b: Instance)
    requires Inv(t) && op.RemoveInstance? && b in t.instances && b.id == op.bot
    ensures Refusal(t, op) == if b.userId == op.userId then None else Some(Missing)
    ensures Next(t, op).rows == t.rows
    ensures Refusal(t, op).None? ==>
      forall other :: other in Next(t, op).instances <==> other in t.instances && other != b
  {
    forall other | other in t.instances && other.id == op.bot
      ensures other == b
    {
      SameIdSameInstance(t, b, other);
    }
  }

  /** 1.0.0 can be updated to 1.1.0 in place, and not to 2.0.0. */
  lemma MinorUpdatesGoThrough(t: Tables, op: Operation, b: Instance)
    requires Inv(t) && op.UpdateInstance? && b in t.instances && b.id == op.bot && b.userId == op.userId && op.accepted
    requires Parse(b.version) == Some(Triple(1, 0, 0)) && HasVersion(t, op.name, op.version)
    ensures Parse(op.version) == Some(Triple(1, 1, 0)) ==> Refusal(t, op) == None
    ensures Parse(op.version) == Some(Triple(2, 0, 0)) ==> Refusal(t, op) == Some(MajorChange)
  {
    UpdateInstanceGoesThroughExactlyWhen(t, op, b);
  }
}
