/** Version numbers: the pattern a published bot must have, what semver accepts of it, and precedence. */
module Versions {
  import opened Results
  import Text

  const MAX_SAFE_INTEGER := 9007199254740991
  const MAX_LENGTH := 256

  datatype Triple = Triple(major: nat, minor: nat, patch: nat)

  predicate Digits(s: string) {
    s != "" && forall i :: 0 <= i < |s| ==> Text.IsDigit(s[i])
  }

  /** ^\d+\.\d+\.\d+$ */
  predicate HasPattern(v: string) {
    var parts := Text.Split(v, '.');
    |parts| == 3 && Digits(parts[0]) && Digits(parts[1]) && Digits(parts[2])
  }

  /** A numeric part that semver accepts: no leading zero, and a safe integer. */
  predicate ValidPart(s: string) {
    Digits(s) && (|s| > 1 ==> s[0] != '0') && Text.Numeral(s) <= MAX_SAFE_INTEGER
  }

  /** semver.parse on versions without prerelease and build parts; None where semver throws. */
  function Parse(v: string): Option<Triple> {
    var parts := Text.Split(v, '.');
    if |v| <= MAX_LENGTH && |parts| == 3 && ValidPart(parts[0]) && ValidPart(parts[1]) && ValidPart(parts[2])
    then Some(Triple(Text.Numeral(parts[0]), Text.Numeral(parts[1]), Text.Numeral(parts[2])))
    else None
  }

  /** Precedence of versions without prerelease parts (Semantic Versioning 2.0.0, section 11, items 2
      and 4): major, minor and patch, compared as numbers in this order. */
  predicate Precedes(a: Triple, b: Triple) {
    a.major < b.major
    || (a.major == b.major && (a.minor < b.minor
    || (a.minor == b.minor && a.patch < b.patch)))
  }

  lemma ParseOfOne()
    ensures Parse("1.0.0") == Some(Triple(1, 0, 0))
  {
    var v: string := "1.0.0";
    assert v[5..] == "" && v[4..][1..] == v[5..] && v[3..][1..] == v[4..] && v[2..][1..] == v[3..];
    assert v[1..][1..] == v[2..];
    assert ['0'] + "" == "0" && ['1'] + "" == "1";
    assert Text.Split(v[4..], '.') == ["0"];
    assert Text.Split(v[3..], '.') == ["", "0"];
    assert Text.Split(v[2..], '.') == ["0", "0"];
    assert Text.Split(v[1..], '.') == ["", "0", "0"];
    assert Text.Split(v, '.') == ["1", "0", "0"];
    assert Text.Numeral("1") == 1 && Text.Numeral("0") == 0;
  }
}
