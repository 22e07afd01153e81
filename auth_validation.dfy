/**
 * The sign-up validators: the password rules, checked in a fixed order with
 * the first broken rule reported, and the email check against an
 * unanchored regular expression.
 */
module AuthValidation {
  import opened Wrappers

  const EMPTY_PASSWORD := "Password cannot be empty."
  const BAD_LENGTH := "Password must be between 8 and 24 characters long."
  const NO_UPPERCASE := "Password must contain at least one uppercase letter."
  const NO_LOWERCASE := "Password must contain at least one lowercase letter."
  const NO_DIGIT := "Password must contain at least one number."
  const NO_SPECIAL := "Password must contain at least one special character."
  const EMPTY_EMAIL := "Email cannot be empty."
  const BAD_EMAIL := "Invalid email format."

  /** The character class `[!@#$%^&*(),.?":{}|<>]`. */
  const SPECIALS: set<char> := {
    '!', '@', '#', '$', '%', '^', '&', '*', '(', ')', ',', '.', '?', '"', ':', '{', '}', '|', '<', '>'
  }

  predicate HasUppercase(s: string) { exists i :: 0 <= i < |s| && 'A' <= s[i] <= 'Z' }
  predicate HasLowercase(s: string) { exists i :: 0 <= i < |s| && 'a' <= s[i] <= 'z' }
  predicate HasDigit(s: string) { exists i :: 0 <= i < |s| && '0' <= s[i] <= '9' }
  predicate HasSpecial(s: string) { exists i :: 0 <= i < |s| && s[i] in SPECIALS }

  /** `ValidatePassword`: returns true or throws a `ValidationError` with the message of the first broken rule. */
  function ValidatePassword(password: string): (r: Outcome<bool>)
    ensures r.Ok? ==> r.value
    ensures r.Ok? <==> 8 <= |password| <= 24 && HasUppercase(password) && HasLowercase(password)
                       && HasDigit(password) && HasSpecial(password)
  {
    if |password| == 0 then Thrown(EMPTY_PASSWORD)
    else if |password| < 8 || |password| > 24 then Thrown(BAD_LENGTH)
    else if !HasUppercase(password) then Thrown(NO_UPPERCASE)
    else if !HasLowercase(password) then Thrown(NO_LOWERCASE)
    else if !HasDigit(password) then Thrown(NO_DIGIT)
    else if !HasSpecial(password) then Thrown(NO_SPECIAL)
    else Ok(true)
  }

  /** A password rule and the message reported when it is broken. */
  datatype Rule = Rule(holds: string -> bool, message: string)

  /** The rules in the order they are checked. */
  function Rules(): (rs: seq<Rule>)
    ensures |rs| == 6
  {
    [ Rule(s => |s| != 0, EMPTY_PASSWORD),
      Rule(s => 8 <= |s| <= 24, BAD_LENGTH),
      Rule(s => HasUppercase(s), NO_UPPERCASE),
      Rule(s => HasLowercase(s), NO_LOWERCASE),
      Rule(s => HasDigit(s), NO_DIGIT),
      Rule(s => HasSpecial(s), NO_SPECIAL) ]
  }

  /** Reference reading of the rule list: the message of the first broken rule, else success. */
  function FirstBroken(rules: seq<Rule>, s: string): (r: Outcome<bool>)
    ensures r.Ok? <==> forall k :: 0 <= k < |rules| ==> rules[k].holds(s)
    ensures r.Ok? ==> r.value
    ensures r.Thrown? ==> exists k :: 0 <= k < |rules| && !rules[k].holds(s) && r.message == rules[k].message
  {
    if rules == [] then Ok(true)
    else if !rules[0].holds(s) then Thrown(rules[0].message)
    else
      var r := FirstBroken(rules[1..], s);
      assert forall k :: 1 <= k < |rules| ==> rules[k] == rules[1..][k - 1];
      if r.Thrown? then
        var k :| 0 <= k < |rules| - 1 && !rules[1..][k].holds(s) && r.message == rules[1..][k].message;
        assert rules[k + 1] == rules[1..][k];
        r
      else r
  }

  /** Broken rules are reported first-to-last: the earliest one decides. */
  lemma {:induction false} FirstBrokenIsEarliest(rules: seq<Rule>, s: string, k: int)
    requires 0 <= k < |rules| && !rules[k].holds(s)
    requires forall j :: 0 <= j < k ==> rules[j].holds(s)
    ensures FirstBroken(rules, s) == Thrown(rules[k].message)
    decreases k
  {
    if k > 0 {
      assert rules[0].holds(s);
      FirstBrokenIsEarliest(rules[1..], s, k - 1);
    }
  }

  /** `ValidatePassword` is exactly the rule list read in order. */
  lemma PasswordFollowsRules(password: string)
    ensures ValidatePassword(password) == FirstBroken(Rules(), password)
  {
    var rs := Rules();
    if |password| == 0 {
      FirstBrokenIsEarliest(rs, password, 0);
    } else if |password| < 8 || |password| > 24 {
      FirstBrokenIsEarliest(rs, password, 1);
    } else if !HasUppercase(password) {
      FirstBrokenIsEarliest(rs, password, 2);
    } else if !HasLowercase(password) {
      FirstBrokenIsEarliest(rs, password, 3);
    } else if !HasDigit(password) {
      FirstBrokenIsEarliest(rs, password, 4);
    } else if !HasSpecial(password) {
      FirstBrokenIsEarliest(rs, password, 5);
    } else {
      assert rs[0].holds(password) && rs[1].holds(password) && rs[2].holds(password);
      assert rs[3].holds(password) && rs[4].holds(password) && rs[5].holds(password);
    }
  }

  /** The error reported is that of the first broken rule, in the order of the checks. */
  lemma PasswordReportsFirstBrokenRule(password: string, k: int)
    requires 0 <= k < 6 && !Rules()[k].holds(password)
    requires forall j :: 0 <= j < k ==> Rules()[j].holds(password)
    ensures ValidatePassword(password) == Thrown(Rules()[k].message)
  {
    PasswordFollowsRules(password);
    FirstBrokenIsEarliest(Rules(), password, k);
  }

  // ---------------------------------------------------------------------------
  // ValidateEmail

  /**
   * `EMAIL_REGEX.test(s)` for a regex whose full-match predicate is
   * `fullMatch`: with no `^`/`$` anchors it succeeds when some substring
   * matches. The search tries start positions from `i` on.
   */
  function SearchFrom(s: string, fullMatch: string -> bool, i: nat): (found: bool)
    requires i <= |s|
    ensures found <==> exists a, b :: i <= a <= b <= |s| && fullMatch(s[a..b])
    decreases |s| - i
  {
    if MatchStartingAt(s, fullMatch, i, |s|) then true
    else if i == |s| then false
    else
      var later := SearchFrom(s, fullMatch, i + 1);
      assert later <==> exists a, b :: i + 1 <= a <= b <= |s| && fullMatch(s[a..b]);
      later
  }

  /** Some match starts at `a` and ends at or before `e`. */
  function MatchStartingAt(s: string, fullMatch: string -> bool, a: nat, e: nat): (found: bool)
    requires a <= e <= |s|
    ensures found <==> exists b :: a <= b <= e && fullMatch(s[a..b])
    decreases e - a
  {
    if fullMatch(s[a..e]) then true
    else if e == a then false
    else MatchStartingAt(s, fullMatch, a, e - 1)
  }

  /** `ValidateEmail`. */
  function ValidateEmail(email: string, fullMatch: string -> bool): (r: Outcome<bool>)
    ensures email == [] ==> r == Thrown(EMPTY_EMAIL)
    ensures email != [] ==>
      (r == Ok(true) <==> exists a, b :: 0 <= a <= b <= |email| && fullMatch(email[a..b]))
    ensures r == Ok(true) || r == Thrown(EMPTY_EMAIL) || r == Thrown(BAD_EMAIL)
  {
    if |email| == 0 then Thrown(EMPTY_EMAIL)
    else if !SearchFrom(email, fullMatch, 0) then Thrown(BAD_EMAIL)
    else Ok(true)
  }

  /** No anchors: any text around a matching address is accepted as well. */
  lemma UnanchoredEmail(before: string, address: string, after: string, fullMatch: string -> bool)
    requires fullMatch(address) && before + address + after != []
    ensures ValidateEmail(before + address + after, fullMatch) == Ok(true)
  {
    var s := before + address + after;
    assert s[|before|..|before| + |address|] == address;
  }
}
