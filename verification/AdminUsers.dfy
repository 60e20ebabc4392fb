/** The users table as far as admin rights and credentials go, and the row writes of UserRepository. */
module AdminUsers {
  import opened Results
  import Text

  datatype Role = Admin | Member

  datatype User = User(
    username: string,
    email: string,
    passwordHash: string,
    role: Role,
    isActive: bool,
    sessionVersion: nat,
    lastLoginAt: nat,
    metadataAdmin: bool)

  type Users = map<string, User>

  /** The fields an update names; None leaves a field alone. */
  datatype UserUpdate = UserUpdate(
    username: Option<string>,
    email: Option<string>,
    role: Option<Role>,
    isActive: Option<bool>)

  predicate IsActiveAdmin(u: User) {
    u.role == Admin && u.isActive
  }

  function ActiveAdmins(users: Users): set<string> {
    set id | id in users && IsActiveAdmin(users[id])
  }

  function Or<T>(o: Option<T>, default: T): T {
    if o.Some? then o.value else default
  }

  /** UserRepository.update on one row. */
  function Updated(u: User, input: UserUpdate): User {
    u.(username := Or(input.username, u.username),
       email := Or(input.email, u.email),
       role := Or(input.role, u.role),
       isActive := Or(input.isActive, u.isActive))
  }

  /** UserRepository.deactivate on one row. */
  function Deactivated(u: User): User {
    u.(isActive := false, sessionVersion := u.sessionVersion + 1)
  }

  /** UserRepository.promoteToAdmin on one row. */
  function Promoted(u: User): User {
    u.(role := Admin)
  }

  /** UserRepository.promoteToAdminAndSetPassword on one row. */
  function PromotedWithPassword(u: User, hash: string): User {
    u.(role := Admin, isActive := true, passwordHash := hash, sessionVersion := u.sessionVersion + 1)
  }

  /** UserRepository.updatePassword on one row. */
  function WithPassword(u: User, hash: string): User {
    u.(passwordHash := hash, sessionVersion := u.sessionVersion + 1)
  }

  // ---------- email comparison ----------

  function LowerChar(c: char): char {
    if 'A' <= c <= 'Z' then (c as int + 32) as char else c
  }

  function Lower(s: string): (r: string)
    ensures |r| == |s|
    ensures forall i :: 0 <= i < |s| ==> r[i] == LowerChar(s[i])
  {
    if s == "" then "" else [LowerChar(s[0])] + Lower(s[1..])
  }

  /** normalizeEmailForComparison: trimmed, then lower case (of the ASCII letters). */
  function NormalizeEmail(email: string): string {
    Lower(Text.Trim(email))
  }

  lemma NormalizeIsIdempotent(email: string)
    ensures NormalizeEmail(NormalizeEmail(email)) == NormalizeEmail(email)
    ensures Text.Trim(NormalizeEmail(email)) == NormalizeEmail(email)
  {
    var n := NormalizeEmail(email);
    Text.TrimIsTrimmed(email);
    assert Text.Trimmed(n);
    Text.TrimOfTrimmed(n);
    assert Lower(n) == n;
  }

  /** The same letter, in whatever case. */
  predicate SameLetter(c: char, d: char) {
    || c == d
    || ('A' <= c <= 'Z' && d as int == c as int + 32)
    || ('A' <= d <= 'Z' && c as int == d as int + 32)
  }

  /** Two emails are the same to the comparison exactly when they have the same letters, in whatever case, after white
      space around them is taken off. */
  lemma SameEmailExactlyWhen(a: string, b: string)
    ensures NormalizeEmail(a) == NormalizeEmail(b) <==>
      && |Text.Trim(a)| == |Text.Trim(b)|
      && forall i :: 0 <= i < |Text.Trim(a)| ==> SameLetter(Text.Trim(a)[i], Text.Trim(b)[i])
  {
    var x, y := Text.Trim(a), Text.Trim(b);
    if |x| == |y| {
      forall i | 0 <= i < |x|
        ensures SameLetter(x[i], y[i]) <==> Lower(x)[i] == Lower(y)[i]
      {
        LetterCase(x[i], y[i]);
      }
      assert Lower(x) == Lower(y) <==> forall i :: 0 <= i < |x| ==> Lower(x)[i] == Lower(y)[i];
    }
  }

  lemma LetterCase(c: char, d: char)
    ensures SameLetter(c, d) <==> LowerChar(c) == LowerChar(d)
  {
  }
}
