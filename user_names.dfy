/**
 * GitHubUserNameValidator: whether a string can be a GitHub user name.
 *
 * The checks run in order and the first failing one answers false: the
 * length must be 1 to 39, the name must not start or end with `-`, every
 * character must be an ASCII letter, digit or `-`, and the whole name must
 * not match `(--)`. Because `matches()` needs the whole string to match,
 * that last check rejects only the two-character string `--`, which the
 * hyphen check has already rejected: consecutive hyphens inside a name
 * pass. `IsValidUserName` models the code as written; `IsValidUserNameIntended`
 * is the rule the class comment states, with the `--` search done anywhere
 * in the name.
 */
module UserNames {
  import opened JavaString

  const MaxLength: nat := 39

  /** The character class `[a-zA-Z0-9-]`. */
  predicate IsNameChar(c: char) {
    'a' <= c <= 'z' || 'A' <= c <= 'Z' || '0' <= c <= '9' || c == '-'
  }

  /** `^[a-zA-Z0-9-]+$` matched against the whole name. */
  predicate AllNameChars(name: string) {
    forall i :: 0 <= i < |name| ==> IsNameChar(name[i])
  }

  /** Two hyphens next to each other somewhere in the name. */
  predicate HasDoubleHyphen(name: string) {
    exists i :: 0 <= i < |name| - 1 && name[i] == '-' && name[i + 1] == '-'
  }

  /** The conditions the class comment lists, other than the one on consecutive hyphens. */
  predicate WellFormed(name: string) {
    1 <= |name| <= MaxLength && name[0] != '-' && name[|name| - 1] != '-' && AllNameChars(name)
  }

  /**
   * `isValidUserName(name)` as written. The result is true exactly when the
   * length, hyphen-placement and character-class conditions hold: the
   * `(--)` check never changes the answer.
   */
  function IsValidUserName(name: string): (ok: bool)
    ensures ok <==> WellFormed(name)
  {
    if |name| > MaxLength || |name| < 1 then false
    else if StartsWith(name, '-') || EndsWith(name, '-') then false
    else if !AllNameChars(name) then false
    else if name == "--" then false
    else true
  }

  /** A name with two consecutive hyphens inside is accepted. */
  lemma DoubleHyphenAccepted()
    ensures HasDoubleHyphen("a--b")
    ensures IsValidUserName("a--b")
  {
    assert "a--b"[1] == '-' && "a--b"[2] == '-';
  }

  /** The rule of the class comment: the `--` pattern searched for anywhere in the name. */
  function IsValidUserNameIntended(name: string): (ok: bool)
    ensures ok <==> WellFormed(name) && !HasDoubleHyphen(name)
  {
    if |name| > MaxLength || |name| < 1 then false
    else if StartsWith(name, '-') || EndsWith(name, '-') then false
    else if !AllNameChars(name) then false
    else !ContainsDoubleHyphen(name)
  }

  /** `invalidPattern.matcher(name).find()`, by a scan over the name. */
  function ContainsDoubleHyphen(name: string): (found: bool)
    ensures found <==> HasDoubleHyphen(name)
  {
    if |name| < 2 then false
    else if name[0] == '-' && name[1] == '-' then true
    else
      var rest := ContainsDoubleHyphen(name[1..]);
      assert HasDoubleHyphen(name[1..]) ==> HasDoubleHyphen(name) by {
        if HasDoubleHyphen(name[1..]) {
          var i :| 0 <= i < |name| - 2 && name[1..][i] == '-' && name[1..][i + 1] == '-';
          assert name[i + 1] == '-' && name[i + 2] == '-';
        }
      }
      assert HasDoubleHyphen(name) ==> HasDoubleHyphen(name[1..]) by {
        if HasDoubleHyphen(name) {
          var i :| 0 <= i < |name| - 1 && name[i] == '-' && name[i + 1] == '-';
          assert i >= 1;
          assert name[1..][i - 1] == '-' && name[1..][i] == '-';
        }
      }
      rest
  }

  /** The corrected rule accepts a subset of what the code accepts, and rejects `a--b`. */
  lemma IntendedIsStricter(name: string)
    ensures IsValidUserNameIntended(name) ==> IsValidUserName(name)
    ensures IsValidUserName(name) && !IsValidUserNameIntended(name) <==> WellFormed(name) && HasDoubleHyphen(name)
    ensures !IsValidUserNameIntended("a--b")
  {
    assert "a--b"[1] == '-' && "a--b"[2] == '-';
  }
}
