/** The account page, frontend/src/pages/AccountDetails.jsx: the password
    strength score, its label and colours, and the early-return guards of
    "Save Changes" and "Reset Password", with the backend requests each one
    issues. Response outcomes are parameters. */
module AccountDetails {
  import opened Wrappers
  import opened Sequences
  import opened JsText
  import opened EmailFormat

  predicate HasUpper(p: string) { exists k :: 0 <= k < |p| && IsAsciiUpper(p[k]) }
  predicate HasLower(p: string) { exists k :: 0 <= k < |p| && IsAsciiLower(p[k]) }
  predicate HasDigit(p: string) { exists k :: 0 <= k < |p| && IsAsciiDigit(p[k]) }

  /** `[^A-Za-z0-9]`: any character that is not an ASCII letter or digit. */
  predicate HasSymbol(p: string)
  {
    exists k :: 0 <= k < |p| && !IsAsciiUpper(p[k]) && !IsAsciiLower(p[k]) && !IsAsciiDigit(p[k])
  }

  /** The five strength criteria, in the order the page tests them. */
  function Criteria(p: string): seq<bool>
  {
    [|p| >= 6, HasUpper(p), HasLower(p), HasDigit(p), HasSymbol(p)]
  }

  /** The number of criteria met. */
  function CriteriaMet(p: string): nat
  {
    Count(Criteria(p), (b: bool) => b)
  }

  /** `evaluatePasswordStrength` (lines 222-230): one point per criterion. */
  method EvaluatePasswordStrength(password: string) returns (score: nat)
    ensures score == CriteriaMet(password)
  {
    score := 0;
    if |password| >= 6 { score := score + 1; }
    if HasUpper(password) { score := score + 1; }
    if HasLower(password) { score := score + 1; }
    if HasDigit(password) { score := score + 1; }
    if HasSymbol(password) { score := score + 1; }
    CriteriaMetUnfolded(password);
  }

  /** Counting the criteria one by one. */
  lemma CriteriaMetUnfolded(p: string)
    ensures CriteriaMet(p) == Point(|p| >= 6) + Point(HasUpper(p)) + Point(HasLower(p)) + Point(HasDigit(p)) + Point(HasSymbol(p))
  {
    var c := Criteria(p);
    var isSet := (b: bool) => b;
    assert c[..4][..3] == c[..3] && c[..3][..2] == c[..2] && c[..2][..1] == c[..1] && c[..1][..0] == [];
    assert |Filter(c[..1], isSet)| == Point(c[0]);
    assert |Filter(c[..2], isSet)| == |Filter(c[..1], isSet)| + Point(c[1]);
    assert |Filter(c[..3], isSet)| == |Filter(c[..2], isSet)| + Point(c[2]);
    assert |Filter(c[..4], isSet)| == |Filter(c[..3], isSet)| + Point(c[3]);
    assert |Filter(c, isSet)| == |Filter(c[..4], isSet)| + Point(c[4]);
  }

  function Point(b: bool): nat { if b then 1 else 0 }

  /** The score lies in 0..5; it is 0 only for the empty password, since every
      character is a letter, a digit or a symbol; it is 5 exactly when every
      criterion holds. */
  lemma StrengthRange(p: string)
    ensures CriteriaMet(p) <= 5
    ensures CriteriaMet(p) == 0 <==> p == []
    ensures CriteriaMet(p) == 5 <==> |p| >= 6 && HasUpper(p) && HasLower(p) && HasDigit(p) && HasSymbol(p)
  {
    CriteriaMetUnfolded(p);
    if p != [] {
      var c := p[0];
      assert IsAsciiUpper(c) ==> HasUpper(p);
      assert IsAsciiLower(c) ==> HasLower(p);
      assert IsAsciiDigit(c) ==> HasDigit(p);
      assert !IsAsciiUpper(c) && !IsAsciiLower(c) && !IsAsciiDigit(c) ==> HasSymbol(p);
    }
  }

  /** `getPasswordStrengthLabel` (lines 246-261). */
  function StrengthLabel(score: int): (text: string)
    ensures text == "Too Short" <==> !(1 <= score <= 5)
    ensures score == 1 <==> text == "Weak"
    ensures score == 2 <==> text == "Fair"
    ensures score == 3 <==> text == "Good"
    ensures score == 4 <==> text == "Strong"
    ensures score == 5 <==> text == "Very Strong"
  {
    match score
    case 1 => "Weak"
    case 2 => "Fair"
    case 3 => "Good"
    case 4 => "Strong"
    case 5 => "Very Strong"
    case _ => "Too Short"
  }

  /** The progress bar's colour scheme (lines 371-377). */
  function BarColor(score: int): (c: string)
    ensures c == "red" <==> score < 3
    ensures c == "yellow" <==> score == 3
    ensures c == "green" <==> score >= 4
  {
    if score < 3 then "red" else if score < 4 then "yellow" else "green"
  }

  /** The label's colour, `getTextColor` (lines 263-273), by hue. */
  function TextColor(score: int): (c: string)
    ensures c == "red" <==> score <= 1
    ensures c == "orange" <==> score == 2 || score == 3
    ensures c == "green" <==> score == 4 || score == 5
    ensures c == "gray" <==> score > 5
  {
    if score <= 1 then "red"
    else if score == 2 then "orange"
    else if score == 3 then "orange"
    else if score == 4 then "green"
    else if score == 5 then "green"
    else "gray"
  }

  /** For a password's score: "Too Short" is shown only for the empty
      password (a single letter is "Weak"), the label is never gray, and a
      "Very Strong" password meets every criterion. */
  lemma PasswordLabels(p: string)
    ensures StrengthLabel(CriteriaMet(p)) == "Too Short" <==> p == []
    ensures TextColor(CriteriaMet(p)) != "gray"
    ensures StrengthLabel(CriteriaMet(p)) == "Very Strong" ==> |p| >= 6 && HasUpper(p) && HasLower(p) && HasDigit(p) && HasSymbol(p)
    ensures p != [] && |p| < 6 ==> StrengthLabel(CriteriaMet(p)) != "Very Strong"
  {
    StrengthRange(p);
    CriteriaMetUnfolded(p);
  }

  /** The requests the page sends to the backend. */
  datatype Request =
    | GetProfile
    | AccountUpdate(name: string, email: string)
    | ResetPasswordRequest(oldPassword: string, newPassword: string)

  /** The stored profile `GET /profile` returns when it succeeds. */
  datatype StoredProfile = StoredProfile(username: string, email: string)

  datatype SaveOutcome = InvalidEmailFormat | NotUpdated | Updated | UpdateFailed

  /** `handleSaveChanges` (lines 108-140). `current` is the profile fetched by
      `checkIfProfileChanged` (`None` when that request fails, which counts as
      changed), `updateOk` the outcome of `POST /account-update`. */
  function SaveChanges(name: string, email: string, current: Option<StoredProfile>, updateOk: bool)
    : (r: (SaveOutcome, seq<Request>))
    ensures r.0 == InvalidEmailFormat <==> !ValidEmail(email)
    ensures !ValidEmail(email) ==> r.1 == []
    ensures ValidEmail(email) ==> |r.1| >= 1 && r.1[0] == GetProfile
    ensures r.0 == NotUpdated <==> ValidEmail(email) && current == Some(StoredProfile(name, email))
    ensures AccountUpdate(name, email) in r.1 <==> r.0 in {Updated, UpdateFailed}
    ensures r.0 == Updated <==> ValidEmail(email) && current != Some(StoredProfile(name, email)) && updateOk
  {
    if !ValidEmail(email) then (InvalidEmailFormat, [])
    else if current.Some? && current.value.username == name && current.value.email == email then (NotUpdated, [GetProfile])
    else (if updateOk then Updated else UpdateFailed, [GetProfile, AccountUpdate(name, email)])
  }

  datatype ResetOutcome = MissingFields | SameAsCurrent | Mismatch | PasswordReset | WrongCurrentPassword

  /** `handleResetPassword` (lines 143-189) as written: the first guard
      fires only when all three fields are empty. `resetOk` is the outcome of
      `POST /reset-password`. */
  function ResetPasswordAsWritten(oldPassword: string, newPassword: string, confirmPassword: string, resetOk: bool)
    : (r: (ResetOutcome, seq<Request>))
    ensures r.0 == MissingFields <==> oldPassword == [] && newPassword == [] && confirmPassword == []
    ensures r.0 == SameAsCurrent <==> !(oldPassword == [] && newPassword == [] && confirmPassword == []) && newPassword == oldPassword
    ensures r.0 == Mismatch <==> !(oldPassword == [] && newPassword == [] && confirmPassword == []) && newPassword != oldPassword && newPassword != confirmPassword
    ensures r.1 != [] <==> r.0 in {PasswordReset, WrongCurrentPassword}
    ensures r.1 != [] ==> r.1 == [ResetPasswordRequest(oldPassword, newPassword)] && newPassword == confirmPassword && newPassword != oldPassword
  {
    if oldPassword == [] && newPassword == [] && confirmPassword == [] then (MissingFields, [])
    else if newPassword == oldPassword then (SameAsCurrent, [])
    else if newPassword != confirmPassword then (Mismatch, [])
    else (if resetOk then PasswordReset else WrongCurrentPassword, [ResetPasswordRequest(oldPassword, newPassword)])
  }

  /** With only the current password filled in, the page passes every guard
      and submits an empty new password, although its message asks for all
      the fields to be filled. */
  lemma EmptyNewPasswordSubmitted()
    ensures ResetPasswordAsWritten("x", "", "", true) == (PasswordReset, [ResetPasswordRequest("x", "")])
  {
  }

  /** The evidently intended reset: any empty field stops it first. */
  function ResetPassword(oldPassword: string, newPassword: string, confirmPassword: string, resetOk: bool)
    : (r: (ResetOutcome, seq<Request>))
    ensures r.0 == MissingFields <==> oldPassword == [] || newPassword == [] || confirmPassword == []
    ensures r.1 != [] <==> r.0 in {PasswordReset, WrongCurrentPassword}
    ensures r.1 != [] ==> r.1 == [ResetPasswordRequest(oldPassword, newPassword)]
    ensures r.1 != [] ==> oldPassword != [] && newPassword != [] && newPassword == confirmPassword && newPassword != oldPassword
  {
    if oldPassword == [] || newPassword == [] || confirmPassword == [] then (MissingFields, [])
    else if newPassword == oldPassword then (SameAsCurrent, [])
    else if newPassword != confirmPassword then (Mismatch, [])
    else (if resetOk then PasswordReset else WrongCurrentPassword, [ResetPasswordRequest(oldPassword, newPassword)])
  }

  /** The two versions differ only when some but not all fields are empty. */
  lemma ResetVersionsAgree(oldPassword: string, newPassword: string, confirmPassword: string, resetOk: bool)
    requires (oldPassword == [] && newPassword == [] && confirmPassword == [])
          || (oldPassword != [] && newPassword != [] && confirmPassword != [])
    ensures ResetPassword(oldPassword, newPassword, confirmPassword, resetOk)
         == ResetPasswordAsWritten(oldPassword, newPassword, confirmPassword, resetOk)
  {
  }
}
