/** The sign-up form, frontend/src/pages/SignUp.jsx: the password rule, the
    username default and the order of the submit guards, with the backend
    requests a submission issues. The e-mail test is `EmailFormat.ValidEmail`;
    the responses of the two requests are parameters. */
module SignUp {
  import opened JsText
  import opened EmailFormat

  /** Positions `i` to `i + n` hold no line terminator, so `.{n}` matches there. */
  predicate LineRun(s: string, i: int, n: nat)
  {
    0 <= i && i + n <= |s| && forall m :: i <= m < i + n ==> !IsLineTerminator(s[m])
  }

  /** `(?=.*[A-Z])` and its siblings at position `i`: a character of the class
      occurs at or after `i` with no line terminator before it. */
  predicate UpperAhead(s: string, i: int)
  {
    exists k :: 0 <= i <= k < |s| && IsAsciiUpper(s[k]) && forall m :: i <= m < k ==> !IsLineTerminator(s[m])
  }

  predicate LowerAhead(s: string, i: int)
  {
    exists k :: 0 <= i <= k < |s| && IsAsciiLower(s[k]) && forall m :: i <= m < k ==> !IsLineTerminator(s[m])
  }

  predicate DigitAhead(s: string, i: int)
  {
    exists k :: 0 <= i <= k < |s| && IsAsciiDigit(s[k]) && forall m :: i <= m < k ==> !IsLineTerminator(s[m])
  }

  /** `/(?=.*[A-Z])(?=.*[a-z])(?=.*\d).{6,20}/.test(s)`: some start position
      satisfies the three look-aheads and is followed by at least six
      characters on one line. The pattern is not anchored, so `{6,20}` sets no
      upper bound on the password. */
  predicate PasswordPattern(s: string)
  {
    exists i :: 0 <= i <= |s| && LineRun(s, i, 6) && UpperAhead(s, i) && LowerAhead(s, i) && DigitAhead(s, i)
  }

  predicate NoLineTerminator(s: string)
  {
    forall m :: 0 <= m < |s| ==> !IsLineTerminator(s[m])
  }

  predicate HasUpper(s: string) { exists k :: 0 <= k < |s| && IsAsciiUpper(s[k]) }
  predicate HasLower(s: string) { exists k :: 0 <= k < |s| && IsAsciiLower(s[k]) }
  predicate HasDigit(s: string) { exists k :: 0 <= k < |s| && IsAsciiDigit(s[k]) }

  /** On one line, the pattern holds exactly for passwords of at least six
      characters with an upper-case letter, a lower-case letter and a digit,
      whatever their length beyond that. */
  lemma PasswordPatternOnOneLine(s: string)
    requires NoLineTerminator(s)
    ensures PasswordPattern(s) <==> |s| >= 6 && HasUpper(s) && HasLower(s) && HasDigit(s)
  {
    if PasswordPattern(s) {
      PasswordPatternNeeds(s);
    }
    if |s| >= 6 && HasUpper(s) && HasLower(s) && HasDigit(s) {
      var u :| 0 <= u < |s| && IsAsciiUpper(s[u]);
      var l :| 0 <= l < |s| && IsAsciiLower(s[l]);
      var d :| 0 <= d < |s| && IsAsciiDigit(s[d]);
      assert UpperAhead(s, 0) && LowerAhead(s, 0) && DigitAhead(s, 0);
      assert LineRun(s, 0, 6);
    }
  }

  /** Whatever the line structure, a matching password has six characters and
      the three classes. */
  lemma PasswordPatternNeeds(s: string)
    requires PasswordPattern(s)
    ensures |s| >= 6 && HasUpper(s) && HasLower(s) && HasDigit(s)
  {
    var i :| 0 <= i <= |s| && LineRun(s, i, 6) && UpperAhead(s, i) && LowerAhead(s, i) && DigitAhead(s, i);
    var u :| 0 <= i <= u < |s| && IsAsciiUpper(s[u]) && forall m :: i <= m < u ==> !IsLineTerminator(s[m]);
    var l :| 0 <= i <= l < |s| && IsAsciiLower(s[l]) && forall m :: i <= m < l ==> !IsLineTerminator(s[m]);
    var d :| 0 <= i <= d < |s| && IsAsciiDigit(s[d]) && forall m :: i <= m < d ==> !IsLineTerminator(s[m]);
  }

  lemma LineRunAt(s: string, i: int, n: nat, m: int)
    requires LineRun(s, i, n) && i <= m < i + n
    ensures !IsLineTerminator(s[m])
  {
  }

  /** A line break can separate the classes from the six characters: "Ab1",
      a line feed and six lower-case letters fails the pattern. */
  lemma LineBreakSplitsPattern()
    ensures !PasswordPattern("Ab1\nabcdef")
  {
    var s := "Ab1\nabcdef";
    forall i | 0 <= i <= |s| && LineRun(s, i, 6) ensures !(UpperAhead(s, i) && DigitAhead(s, i)) {
      if i < 4 {
        LineRunAt(s, i, 6, 3);
        assert false;
      }
    }
  }

  /** `validatePassword(password, email, username)` (lines 53-61). */
  function ValidatePassword(password: string, email: string, username: string): (ok: bool)
    ensures ToLower(password) == ToLower(BeforeFirst(email, '@')) ==> !ok
    ensures ToLower(password) == ToLower(username) ==> !ok
    ensures ok <==> ToLower(password) != ToLower(BeforeFirst(email, '@')) && ToLower(password) != ToLower(username)
                    && PasswordPattern(password)
  {
    if ToLower(password) == ToLower(BeforeFirst(email, '@')) then false
    else if ToLower(password) == ToLower(username) then false
    else PasswordPattern(password)
  }

  /** A password longer than twenty characters is accepted when it differs
      from the user's names and meets the three classes on one line. */
  lemma LongPasswordAccepted(password: string, email: string, username: string)
    requires |password| > 20 && NoLineTerminator(password)
    requires HasUpper(password) && HasLower(password) && HasDigit(password)
    requires ToLower(password) != ToLower(BeforeFirst(email, '@')) && ToLower(password) != ToLower(username)
    ensures ValidatePassword(password, email, username)
  {
    PasswordPatternOnOneLine(password);
  }

  /** `event.target.username.value || email.split("@")[0]` (line 90). */
  function DefaultUsername(entered: string, email: string): (username: string)
    ensures entered != [] ==> username == entered
    ensures entered == [] ==> username == BeforeFirst(email, '@') && '@' !in username
  {
    if entered != [] then entered else BeforeFirst(email, '@')
  }

  /** With the username left empty, the two name checks coincide: the password
      must differ from the e-mail's local part. */
  lemma DefaultUsernameCheck(password: string, email: string)
    ensures ValidatePassword(password, email, DefaultUsername("", email))
        <==> ToLower(password) != ToLower(BeforeFirst(email, '@')) && PasswordPattern(password)
  {
  }

  /** The default can still be empty for a valid e-mail whose first character is `@`. */
  lemma EmptyDefaultUsername()
    ensures ValidEmail("@a@b.c") && DefaultUsername("", "@a@b.c") == ""
  {
    assert MatchAt("@a@b.c", 1, 2, 4, 6);
  }

  datatype Request =
    | CheckEmail(email: string)
    | Signup(username: string, email: string, password: string)

  datatype SignUpOutcome =
    | TermsNotAccepted | InvalidEmail | InvalidPassword | AlreadyRegistered | SignedUp | SignUpFailed

  /** `handleSignUp` (lines 84-147): the terms box, then the e-mail, then the
      password, and only then `GET /check-email` and `POST /signup`.
      `registered` is the check's answer and `signupOk` the sign-up's outcome. */
  function HandleSignUp(termsChecked: bool, email: string, enteredUsername: string, password: string,
                        registered: bool, signupOk: bool): (r: (SignUpOutcome, seq<Request>))
    ensures r.0 == TermsNotAccepted <==> !termsChecked
    ensures r.0 == InvalidEmail <==> termsChecked && !ValidEmail(email)
    ensures r.0 == InvalidPassword <==>
      termsChecked && ValidEmail(email) && !ValidatePassword(password, email, DefaultUsername(enteredUsername, email))
    ensures r.1 != [] <==> r.0 in {AlreadyRegistered, SignedUp, SignUpFailed}
    ensures r.1 != [] ==> r.1[0] == CheckEmail(email)
    ensures r.0 == AlreadyRegistered ==> r.1 == [CheckEmail(email)]
    ensures r.0 in {SignedUp, SignUpFailed} ==>
      r.1 == [CheckEmail(email), Signup(DefaultUsername(enteredUsername, email), email, password)]
  {
    var username := DefaultUsername(enteredUsername, email);
    if !termsChecked then (TermsNotAccepted, [])
    else if !ValidEmail(email) then (InvalidEmail, [])
    else if !ValidatePassword(password, email, username) then (InvalidPassword, [])
    else if registered then (AlreadyRegistered, [CheckEmail(email)])
    else (if signupOk then SignedUp else SignUpFailed, [CheckEmail(email), Signup(username, email, password)])
  }
}
