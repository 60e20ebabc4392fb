/** Start-up synchronisation of the configured root admin, and the search for a free user name. */
module AdminBootstrap {
  import opened AdminUsers
  import opened Results
  import Text

  /** bcrypt: hashing with a salt, and comparing. */
  datatype Crypto = Crypto(hash: (string, nat) -> string, verify: (string, string) -> bool)

  ghost predicate SoundCrypto(k: Crypto) {
    forall p: string, salt: nat :: k.verify(p, k.hash(p, salt)) && k.hash(p, salt) != ""
  }

  // ---------- a free user name ----------

  function DeriveUsername(email: string): string {
    var local := Text.Trim(Text.Split(email, '@')[0]);
    if local != "" then local else email
  }

  /** The names tried, in order: base, base-admin, base-admin-2, base-admin-3, ... */
  function Candidate(base: string, k: nat): string {
    if k == 0 then base
    else if k == 1 then base + "-admin"
    else base + "-admin-" + Text.Decimal(k)
  }

  /** The first names tried. */
  lemma CandidateNames(base: string)
    ensures Candidate(base, 0) == base && Candidate(base, 1) == base + "-admin"
    ensures Candidate(base, 2) == base + "-admin-" + "2" && Candidate(base, 10) == base + "-admin-" + "10"
  {
    assert Text.Decimal(2) == "2" && Text.Decimal(1) == "1" && Text.Decimal(10) == Text.Decimal(1) + "0" == "10";
  }

  /** The user name is what stands before the first at sign, unless that is blank: then it is the whole email. */
  lemma UsernameIsLocalPart(front: string, local: string, back: string, rest: string)
    requires Text.Blank(front) && Text.Blank(back) && Text.Trimmed(local) && '@' !in local
    ensures var email := front + local + back + "@" + rest;
      DeriveUsername(email) == if local != "" then local else email
  {
    var head := front + local + back;
    BlankHasNoAt(front);
    BlankHasNoAt(back);
    Text.SplitNoSep(head, '@');
    Text.SplitAtSep(head, rest, '@');
    Text.TrimIs(front, local, back);
  }

  lemma BlankHasNoAt(s: string)
    requires Text.Blank(s)
    ensures '@' !in s
  {
  }

  lemma CandidatesDiffer(base: string, i: nat, j: nat)
    requires i < j
    ensures Candidate(base, i) != Candidate(base, j)
  {
    if i >= 2 && Candidate(base, i) == Candidate(base, j) {
      var stem := base + "-admin-";
      assert Text.Decimal(i) == Candidate(base, i)[|stem|..];
      assert Text.Decimal(j) == Candidate(base, j)[|stem|..];
      Text.NumeralOfDecimal(i);
      Text.NumeralOfDecimal(j);
    }
  }

  /** n different names in a set need n elements. */
  lemma {:induction false} TakenBound(base: string, n: nat, names: set<string>)
    requires forall k :: 0 <= k < n ==> Candidate(base, k) in names
    ensures n <= |names|
  {
    if n == 0 {
    } else {
      var last := Candidate(base, n - 1);
      forall k | 0 <= k < n - 1
        ensures Candidate(base, k) in names - {last}
      {
        CandidatesDiffer(base, k, n - 1);
      }
      TakenBound(base, n - 1, names - {last});
    }
  }

  function Usernames(users: seq<User>): (names: set<string>)
    ensures |names| <= |users|
    ensures forall i :: 0 <= i < |users| ==> users[i].username in names
    ensures forall n :: n in names ==> exists i :: 0 <= i < |users| && users[i].username == n
  {
    if users == [] then {}
    else
      var rest := Usernames(users[1..]);
      OneMoreName(rest, users[0].username);
      NamesOfMore(users, rest);
      rest + {users[0].username}
  }

  lemma NamesOfMore(users: seq<User>, rest: set<string>)
    requires users != []
    requires forall i :: 0 <= i < |users[1..]| ==> users[1..][i].username in rest
    requires forall n :: n in rest ==> exists i :: 0 <= i < |users[1..]| && users[1..][i].username == n
    ensures forall i :: 0 <= i < |users| ==> users[i].username in rest + {users[0].username}
    ensures forall n :: n in rest + {users[0].username} ==> exists i :: 0 <= i < |users| && users[i].username == n
  {
    assert forall i :: 1 <= i < |users| ==> users[i] == users[1..][i - 1];
    forall n | n in rest
      ensures exists i :: 0 <= i < |users| && users[i].username == n
    {
      var i :| 0 <= i < |users[1..]| && users[1..][i].username == n;
      assert users[i + 1].username == n;
    }
  }

  lemma OneMoreName(names: set<string>, name: string)
    ensures |names + {name}| <= |names| + 1
  {
    if name in names {
      assert names + {name} == names;
    }
  }

  /** The first n candidates are in use. */
  ghost predicate AllTaken(base: string, n: nat, names: set<string>) {
    forall k :: 0 <= k < n ==> Candidate(base, k) in names
  }

  lemma OneMoreTaken(base: string, n: nat, names: set<string>)
    requires AllTaken(base, n, names) && Candidate(base, n) in names
    ensures AllTaken(base, n + 1, names) && n + 1 <= |names|
  {
    TakenBound(base, n + 1, names);
  }

  lemma LaterCandidate(base: string, k: nat)
    requires k >= 2
    ensures Candidate(base, k) == base + "-admin-" + Text.Decimal(k)
  {
  }

  /** The first candidate no user has; it looks at no more than |users| + 1 candidates. */
  method UniqueUsername(email: string, users: seq<User>) returns (name: string, tried: nat)
    ensures forall i :: 0 <= i < |users| ==> users[i].username != name
    ensures 1 <= tried <= |users| + 1
    ensures name == Candidate(DeriveUsername(email), tried - 1)
    ensures forall k :: 0 <= k < tried - 1 ==> Candidate(DeriveUsername(email), k) in Usernames(users)
  {
    var names := Usernames(users);
    name, tried := FirstFree(DeriveUsername(email), names);
  }

  /** The search among the names in use. */
  method FirstFree(base: string, names: set<string>) returns (name: string, tried: nat)
    ensures name !in names && 1 <= tried <= |names| + 1
    ensures name == Candidate(base, tried - 1) && AllTaken(base, tried - 1, names)
  {
    if base !in names {
      return base, 1;
    }
    OneMoreTaken(base, 0, names);
    var suffix := 1;
    name := base + "-admin";
    while name in names
      invariant suffix >= 1 && name == Candidate(base, suffix)
      invariant AllTaken(base, suffix, names) && suffix <= |names|
      decreases |names| - suffix
    {
      OneMoreTaken(base, suffix, names);
      suffix := suffix + 1;
      LaterCandidate(base, suffix);
      name := base + "-admin-" + Text.Decimal(suffix);
    }
    tried := suffix + 1;
  }

  // ---------- the users table ----------

  /** The table as list() sees it: row ids in list order, and the rows. */
  datatype Table = Table(ids: seq<string>, users: Users)

  predicate ValidTable(t: Table) {
    && (forall i, j :: 0 <= i < j < |t.ids| ==> t.ids[i] != t.ids[j])
    && (forall i :: 0 <= i < |t.ids| ==> t.ids[i] in t.users)
    && (forall id :: id in t.users ==> id in t.ids)
  }

  /** The unique columns. */
  predicate UniqueKeys(t: Table) {
    forall a, b :: a in t.users && b in t.users && a != b ==>
      t.users[a].username != t.users[b].username && t.users[a].email != t.users[b].email
  }

  function Rows(t: Table): (rows: seq<User>)
    requires ValidTable(t)
    ensures |rows| == |t.ids|
  {
    seq(|t.ids|, i requires 0 <= i < |t.ids| => t.users[t.ids[i]])
  }

  function Inserted(t: Table, id: string, u: User): Table {
    Table(t.ids + [id], t.users[id := u])
  }

  // ---------- what bootstrap leaves ----------

  predicate NeedsPromotion(u: User) {
    u.metadataAdmin && u.role != Admin
  }

  function AfterPromotion(u: User): User {
    if NeedsPromotion(u) then Promoted(u) else u
  }

  function PromotedUsers(users: Users): Users {
    map id | id in users :: AfterPromotion(users[id])
  }

  lemma AllPromoted(t: Table, users: Users)
    requires ValidTable(t) && users.Keys == t.users.Keys
    requires forall j :: 0 <= j < |t.ids| ==> users[t.ids[j]] == AfterPromotion(t.users[t.ids[j]])
    ensures users == PromotedUsers(t.users)
  {
    forall id | id in users
      ensures users[id] == PromotedUsers(t.users)[id]
    {
      var j :| 0 <= j < |t.ids| && t.ids[j] == id;
    }
  }

  /** The index of the first true; |s| when there is none. */
  function FirstTrue(s: seq<bool>): (i: nat)
    ensures i <= |s|
    ensures i < |s| ==> s[i]
    ensures forall k :: 0 <= k < i ==> !s[k]
  {
    if s == [] || s[0] then 0 else 1 + FirstTrue(s[1..])
  }

  /** Which listed rows have the configured email. */
  function Matching(t: Table, email: string): (m: seq<bool>)
    requires ValidTable(t)
    ensures |m| == |t.ids|
  {
    seq(|t.ids|, i requires 0 <= i < |t.ids| => NormalizeEmail(t.users[t.ids[i]].email) == email)
  }

  /** The place of the first row with the configured email; |ids| when there is none. */
  function FirstMatch(t: Table, email: string): (i: nat)
    requires ValidTable(t)
    ensures i <= |t.ids|
  {
    FirstTrue(Matching(t, email))
  }

  /** The configured admin's row is in order. */
  predicate IsConfigured(u: User, email: string, password: string, k: Crypto) {
    NormalizeEmail(u.email) == email && IsActiveAdmin(u) && u.passwordHash != "" && k.verify(password, u.passwordHash)
  }

  /** Nothing is left for bootstrap to do. */
  predicate Settled(t: Table, email: string, password: string, k: Crypto)
    requires ValidTable(t)
  {
    && (forall id :: id in t.users ==> !NeedsPromotion(t.users[id]))
    && var i := FirstMatch(t, email);
       i < |t.ids| && IsConfigured(t.users[t.ids[i]], email, password, k)
  }

  /** The row that bootstrap takes for the configured admin. */
  predicate IsFirstMatch(t: Table, email: string, id: string)
    requires ValidTable(t)
  {
    FirstMatch(t, email) < |t.ids| && t.ids[FirstMatch(t, email)] == id
  }

  /** No row disappears or loses admin rights, every row but the first with the configured email is promoted when it
      is marked and untouched when it is not, and at most one row is new. */
  predicate KeepsOthers(before: Table, after: Table, email: string)
    requires ValidTable(before)
  {
    && (forall id :: id in before.users ==>
          && id in after.users
          && (IsActiveAdmin(before.users[id]) ==> IsActiveAdmin(after.users[id]))
          && (!IsFirstMatch(before, email, id) ==> after.users[id] == PromotedUsers(before.users)[id]))
    && before.ids <= after.ids && |after.ids| <= |before.ids| + 1
  }

  /** What holds after the promotions holds of both steps together. */
  lemma KeepsOthersThrough(before: Table, promoted: Table, after: Table, email: string)
    requires ValidTable(before) && ValidTable(promoted)
    requires promoted == Table(before.ids, PromotedUsers(before.users))
    requires FirstMatch(promoted, email) == FirstMatch(before, email)
    requires forall id :: id in promoted.users ==> !NeedsPromotion(promoted.users[id])
    requires KeepsOthers(promoted, after, email)
    ensures KeepsOthers(before, after, email)
  {
  }

  /** Promotions do not change which row that is. */
  lemma PromotionKeepsMatch(t: Table, email: string)
    requires ValidTable(t)
    ensures ValidTable(Table(t.ids, PromotedUsers(t.users)))
    ensures FirstMatch(Table(t.ids, PromotedUsers(t.users)), email) == FirstMatch(t, email)
  {
    assert Matching(Table(t.ids, PromotedUsers(t.users)), email) == Matching(t, email);
  }

  class UserTable {
    var table: Table
    /** Counts the write calls made so far. */
    var writes: nat

    constructor (t: Table)
      ensures table == t && writes == 0
    {
      table, writes := t, 0;
    }

    method Put(id: string, u: User)
      requires id in table.users
      modifies this
      ensures table == Table(old(table).ids, old(table).users[id := u]) && writes == old(writes) + 1
    {
      table, writes := Table(table.ids, table.users[id := u]), writes + 1;
    }

    method Insert(id: string, u: User)
      requires id !in table.users
      modifies this
      ensures table == Inserted(old(table), id, u) && writes == old(writes) + 1
    {
      table, writes := Inserted(table, id, u), writes + 1;
    }

    /** The promotion loop over the listed users. */
    method PromoteFromMetadata()
      requires ValidTable(table)
      modifies this
      ensures table == Table(old(table).ids, PromotedUsers(old(table).users))
      ensures (forall id :: id in old(table).users ==> !NeedsPromotion(old(table).users[id])) ==> writes == old(writes)
    {
      ghost var before := table;
      var ids, listed := table.ids, table.users;
      for i := 0 to |ids|
        invariant table.ids == ids && table.users.Keys == listed.Keys
        invariant forall j :: 0 <= j < i ==> table.users[ids[j]] == AfterPromotion(listed[ids[j]])
        invariant forall j :: i <= j < |ids| ==> table.users[ids[j]] == listed[ids[j]]
        invariant (forall id :: id in listed ==> !NeedsPromotion(listed[id])) ==> writes == old(writes)
      {
        if NeedsPromotion(listed[ids[i]]) {
          Put(ids[i], Promoted(table.users[ids[i]]));
        }
      }
      AllPromoted(before, table.users);
    }

    /** bootstrapConfiguredRootAdmin, under the lock. `newId` is the id the database would assign. */
    method SyncConfiguredRootAdmin(email: string, password: string, k: Crypto, newId: string, salt: nat)
      requires ValidTable(table) && UniqueKeys(table) && SoundCrypto(k)
      requires NormalizeEmail(email) == email && newId !in table.users
      modifies this
      ensures ValidTable(table) && UniqueKeys(table)
      ensures Settled(table, email, password, k)
      ensures old(Settled(table, email, password, k)) ==> table == old(table) && writes == old(writes)
      ensures KeepsOthers(old(table), table, email)
    {
      ghost var before := table;
      if |table.ids| == 0 {
        CreateConfiguredFirstAdmin(email, password, k, newId, salt);
        return;
      }
      PromotionKeepsKeys(before);
      PromotionKeepsMatch(before, email);
      PromoteFromMetadata();
      ghost var promoted := table;
      SyncListed(email, password, k, newId, salt);
      KeepsOthersThrough(before, promoted, table, email);
    }

    /** The branch for an empty table. */
    method CreateConfiguredFirstAdmin(email: string, password: string, k: Crypto, newId: string, salt: nat)
      requires ValidTable(table) && SoundCrypto(k) && |table.ids| == 0
      requires NormalizeEmail(email) == email
      modifies this
      ensures ValidTable(table) && UniqueKeys(table) && Settled(table, email, password, k)
      ensures KeepsOthers(old(table), table, email)
      ensures table == Inserted(old(table), newId,
        User(Text.Trim(DeriveUsername(email)), email, k.hash(password, salt), Admin, true, 0, 0, false))
    {
      var username, hash := Text.Trim(DeriveUsername(email)), k.hash(password, salt);
      var first := User(username, Text.Trim(email), hash, Admin, true, 0, 0, false);
      NormalizeIsIdempotent(email);
      assert table.users.Keys == {};
      NewAdminSettles(table, newId, first, email, password, k);
      assert table.ids <= table.ids + [newId];
      Insert(newId, first);
    }

    /** The part after the promotions: find the configured user, then create or put in order. */
    method SyncListed(email: string, password: string, k: Crypto, newId: string, salt: nat)
      requires ValidTable(table) && UniqueKeys(table) && SoundCrypto(k)
      requires NormalizeEmail(email) == email && newId !in table.users
      requires forall id :: id in table.users ==> !NeedsPromotion(table.users[id])
      modifies this
      ensures ValidTable(table) && UniqueKeys(table)
      ensures Settled(table, email, password, k)
      ensures old(Settled(table, email, password, k)) ==> table == old(table) && writes == old(writes)
      ensures KeepsOthers(old(table), table, email)
    {
      if FirstMatch(table, email) == |table.ids| {
        CreateConfiguredRootAdmin(email, password, k, newId, salt);
      } else {
        SyncConfiguredRow(FirstMatch(table, email), email, password, k, salt);
      }
    }

    method CreateConfiguredRootAdmin(email: string, password: string, k: Crypto, newId: string, salt: nat)
      requires ValidTable(table) && UniqueKeys(table) && SoundCrypto(k)
      requires NormalizeEmail(email) == email && newId !in table.users
      requires forall id :: id in table.users ==> !NeedsPromotion(table.users[id])
      requires FirstMatch(table, email) == |table.ids|
      modifies this
      ensures ValidTable(table) && UniqueKeys(table) && Settled(table, email, password, k)
      ensures KeepsOthers(old(table), table, email)
      ensures exists n: nat ::
        && table == Inserted(old(table), newId,
             User(Candidate(DeriveUsername(email), n), email, k.hash(password, salt), Admin, true, 0, 0, false))
        && forall m :: 0 <= m < n ==> Candidate(DeriveUsername(email), m) in Usernames(Rows(old(table)))
    {
      var username, tried := UniqueUsername(email, Rows(table));
      assert username == Candidate(DeriveUsername(email), tried - 1);
      var u := User(username, email, k.hash(password, salt), Admin, true, 0, 0, false);
      NameIsFree(table, username);
      NewAdminSettles(table, newId, u, email, password, k);
      assert table.ids <= table.ids + [newId];
      Insert(newId, u);
    }

    method SyncConfiguredRow(i: nat, email: string, password: string, k: Crypto, salt: nat)
      requires ValidTable(table) && UniqueKeys(table) && SoundCrypto(k)
      requires forall id :: id in table.users ==> !NeedsPromotion(table.users[id])
      requires i < |table.ids| && FirstMatch(table, email) == i
      modifies this
      ensures ValidTable(table) && UniqueKeys(table) && Settled(table, email, password, k)
      ensures old(Settled(table, email, password, k)) ==> table == old(table) && writes == old(writes)
      ensures KeepsOthers(old(table), table, email)
      ensures var user := old(table).users[old(table).ids[i]];
        table.users[old(table).ids[i]] ==
          if user.passwordHash == "" || !k.verify(password, user.passwordHash)
          then user.(role := Admin, isActive := true, passwordHash := k.hash(password, salt),
                     sessionVersion := user.sessionVersion + 1)
          else user.(role := Admin, isActive := true)
    {
      var user := table.users[table.ids[i]];
      assert Matching(table, email)[i];
      if user.passwordHash == "" || !k.verify(password, user.passwordHash) {
        PutSynced(i, PromotedWithPassword(user, k.hash(password, salt)), email, password, k);
      } else if !IsActiveAdmin(user) {
        PutSynced(i, Updated(user, UserUpdate(None, None, Some(Admin), Some(true))), email, password, k);
      }
    }

    /** Writing the matched row in order. */
    method PutSynced(i: nat, synced: User, email: string, password: string, k: Crypto)
      requires ValidTable(table) && UniqueKeys(table)
      requires forall id :: id in table.users ==> !NeedsPromotion(table.users[id])
      requires i < |table.ids| && FirstMatch(table, email) == i
      requires var user := table.users[table.ids[i]]; synced.email == user.email && synced.username == user.username
      requires IsActiveAdmin(synced) && synced.passwordHash != "" && k.verify(password, synced.passwordHash)
      modifies this
      ensures ValidTable(table) && UniqueKeys(table) && Settled(table, email, password, k)
      ensures KeepsOthers(old(table), table, email)
      ensures table.users[old(table).ids[i]] == synced
    {
      SyncedRowSettles(table, i, synced, email, password, k);
      Put(table.ids[i], synced);
    }
  }

  lemma NameIsFree(t: Table, name: string)
    requires ValidTable(t)
    requires forall i :: 0 <= i < |Rows(t)| ==> Rows(t)[i].username != name
    ensures forall id :: id in t.users ==> t.users[id].username != name
  {
    forall id | id in t.users
      ensures t.users[id].username != name
    {
      var i :| 0 <= i < |t.ids| && t.ids[i] == id;
      assert Rows(t)[i] == t.users[id];
    }
  }

  lemma NoMatch(t: Table, email: string)
    requires ValidTable(t) && FirstMatch(t, email) == |t.ids|
    ensures forall id :: id in t.users ==> NormalizeEmail(t.users[id].email) != email
  {
    forall id | id in t.users
      ensures NormalizeEmail(t.users[id].email) != email
    {
      var i :| 0 <= i < |t.ids| && t.ids[i] == id;
      assert !Matching(t, email)[i];
    }
  }

  lemma NewEmailIsNew(t: Table, email: string)
    requires ValidTable(t) && FirstMatch(t, email) == |t.ids| && NormalizeEmail(email) == email
    ensures forall id :: id in t.users ==> t.users[id].email != email
  {
    NoMatch(t, email);
  }

  lemma InsertedIsValid(t: Table, id: string, u: User)
    requires ValidTable(t) && UniqueKeys(t) && id !in t.users
    requires forall other :: other in t.users ==>
               t.users[other].username != u.username && t.users[other].email != u.email
    ensures ValidTable(Inserted(t, id, u)) && UniqueKeys(Inserted(t, id, u))
  {
  }

  /** The new row is the first match. */
  lemma InsertedMatches(t: Table, id: string, u: User, email: string)
    requires ValidTable(t) && ValidTable(Inserted(t, id, u)) && id !in t.users && FirstMatch(t, email) == |t.ids|
    requires NormalizeEmail(u.email) == email
    ensures FirstMatch(Inserted(t, id, u), email) == |t.ids|
  {
    var n := Inserted(t, id, u);
    NoMatch(t, email);
    var m := Matching(n, email);
    assert m[|t.ids|];
    forall i | 0 <= i < |t.ids|
      ensures !m[i]
    {
      assert n.ids[i] == t.ids[i] && t.ids[i] in t.users;
    }
  }

  /** Inserting a configured admin where no row matched settles the table. */
  lemma NewAdminSettles(t: Table, id: string, u: User, email: string, password: string, k: Crypto)
    requires ValidTable(t) && UniqueKeys(t) && id !in t.users && FirstMatch(t, email) == |t.ids|
    requires forall other :: other in t.users ==>
               !NeedsPromotion(t.users[other]) && t.users[other].username != u.username
    requires u.email == email && IsConfigured(u, email, password, k) && !NeedsPromotion(u)
    ensures ValidTable(Inserted(t, id, u)) && UniqueKeys(Inserted(t, id, u))
    ensures Settled(Inserted(t, id, u), email, password, k)
  {
    NewEmailIsNew(t, email);
    InsertedIsValid(t, id, u);
    InsertedMatches(t, id, u, email);
  }

  /** Putting the matched row in order settles the table. */
  lemma SyncedRowSettles(t: Table, i: nat, u: User, email: string, password: string, k: Crypto)
    requires ValidTable(t) && UniqueKeys(t) && i < |t.ids| && FirstMatch(t, email) == i
    requires forall other :: other in t.users ==> !NeedsPromotion(t.users[other])
    requires u.email == t.users[t.ids[i]].email && u.username == t.users[t.ids[i]].username
    requires IsActiveAdmin(u) && u.passwordHash != "" && k.verify(password, u.passwordHash)
    ensures var n := Table(t.ids, t.users[t.ids[i] := u]);
            ValidTable(n) && UniqueKeys(n) && Settled(n, email, password, k)
  {
    var n := Table(t.ids, t.users[t.ids[i] := u]);
    assert Matching(n, email) == Matching(t, email);
    assert Matching(t, email)[i];
  }

  /** The promotions keep rows and unique columns, and leave nothing to promote. */
  lemma PromotionKeepsKeys(t: Table)
    requires ValidTable(t) && UniqueKeys(t)
    ensures var p := Table(t.ids, PromotedUsers(t.users));
            && ValidTable(p) && UniqueKeys(p) && p.users.Keys == t.users.Keys
            && (forall id :: id in p.users ==> !NeedsPromotion(p.users[id]))
            && ((forall id :: id in t.users ==> !NeedsPromotion(t.users[id])) ==> p == t)
  {
    PromotedKeysStay(t);
    if forall id :: id in t.users ==> !NeedsPromotion(t.users[id]) {
      NothingPromoted(t.users);
    }
  }

  lemma PromotedKeysStay(t: Table)
    requires ValidTable(t) && UniqueKeys(t)
    ensures ValidTable(Table(t.ids, PromotedUsers(t.users))) && UniqueKeys(Table(t.ids, PromotedUsers(t.users)))
  {
    var p := PromotedUsers(t.users);
    assert forall id :: id in t.users ==>
      p[id].username == t.users[id].username && p[id].email == t.users[id].email;
  }

  lemma NothingPromoted(users: Users)
    requires forall id :: id in users ==> !NeedsPromotion(users[id])
    ensures PromotedUsers(users) == users
  {
  }
}
