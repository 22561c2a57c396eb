/** The e-mail check `validateEmail`, written identically on the sign-up and
    account pages: `/\S+@\S+\.\S+/.test(email)`. The pattern is not anchored,
    so it holds when some part of the text matches it. */
module EmailFormat {
  import opened JsText

  /** Positions `a` to `b` (exclusive) are a non-empty run without white space. */
  predicate NonBlankRun(s: string, a: int, b: int)
  {
    0 <= a < b <= |s| && forall m :: a <= m < b ==> !IsJsWhitespace(s[m])
  }

  /** `\S+@\S+\.\S+` matches `s[a..e]`, with the `@` at `i` and the `.` at `j`. */
  predicate MatchAt(s: string, a: int, i: int, j: int, e: int)
  {
    && NonBlankRun(s, a, i) && i < |s| && s[i] == '@'
    && NonBlankRun(s, i + 1, j) && j < |s| && s[j] == '.'
    && NonBlankRun(s, j + 1, e)
  }

  /** `validateEmail(email)`. */
  predicate ValidEmail(s: string)
  {
    exists a, i, j, e | 0 <= a < i < j < e <= |s| :: MatchAt(s, a, i, j, e)
  }

  /** The shortest form of a match: one visible character before the `@`, a
      visible run up to the `.`, one visible character after it. */
  predicate CoreAt(s: string, i: int, j: int)
  {
    && 1 <= i && i + 2 <= j && j + 1 < |s|
    && !IsJsWhitespace(s[i - 1]) && s[i] == '@'
    && (forall m :: i < m < j ==> !IsJsWhitespace(s[m]))
    && s[j] == '.' && !IsJsWhitespace(s[j + 1])
  }

  /** Every match contains a shortest one, so the test only needs an `@`
      preceded by a visible character and followed by a visible run, a `.`
      and a visible character. */
  lemma ValidEmailCore(s: string)
    ensures ValidEmail(s) <==> exists i, j :: CoreAt(s, i, j)
  {
    if ValidEmail(s) {
      var a, i, j, e :| 0 <= a < i < j < e <= |s| && MatchAt(s, a, i, j, e);
      assert CoreAt(s, i, j);
    }
    if exists i, j :: CoreAt(s, i, j) {
      var i, j :| CoreAt(s, i, j);
      assert MatchAt(s, i - 1, i, j, j + 2);
    }
  }

  /** A valid address holds an `@` and a later `.`, and has at least five characters. */
  lemma ValidEmailShape(s: string)
    requires ValidEmail(s)
    ensures exists i, j :: 0 <= i < j < |s| && s[i] == '@' && s[j] == '.'
    ensures |s| >= 5
  {
    var a, i, j, e :| 0 <= a < i < j < e <= |s| && MatchAt(s, a, i, j, e);
    assert 0 <= i < j < |s| && s[i] == '@' && s[j] == '.';
  }

  /** A valid address has an `@` right after a visible character. */
  lemma VisibleBeforeAt(s: string)
    requires ValidEmail(s)
    ensures exists i :: 1 <= i < |s| && s[i] == '@' && !IsJsWhitespace(s[i - 1])
  {
    var a, i, j, e :| 0 <= a < i < j < e <= |s| && MatchAt(s, a, i, j, e);
    assert !IsJsWhitespace(s[i - 1]);
  }

  /** The pattern is unanchored: text around a valid address keeps it valid. */
  lemma ValidEmailInContext(s: string, before: string, after: string)
    requires ValidEmail(s)
    ensures ValidEmail(before + s + after)
  {
    var a, i, j, e :| 0 <= a < i < j < e <= |s| && MatchAt(s, a, i, j, e);
    var t := before + s + after;
    var k := |before|;
    assert forall m :: 0 <= m < |s| ==> t[k + m] == s[m];
    RunShift(s, t, k, a, i);
    RunShift(s, t, k, i + 1, j);
    RunShift(s, t, k, j + 1, e);
    assert t[k + i] == s[i] && t[k + j] == s[j];
    assert MatchAt(t, k + a, k + i, k + j, k + e);
  }

  /** A run without white space stays one when the text is embedded at offset `k`. */
  lemma RunShift(s: string, t: string, k: nat, a: int, b: int)
    requires NonBlankRun(s, a, b) && k + |s| <= |t|
    requires forall m :: 0 <= m < |s| ==> t[k + m] == s[m]
    ensures NonBlankRun(t, k + a, k + b)
  {
    forall m | k + a <= m < k + b ensures !IsJsWhitespace(t[m]) {
      assert t[k + (m - k)] == s[m - k];
    }
  }

  /** "a@b.c" is valid, and so is "see a@b.c now"; "a@b" and "a @b.c" are not. */
  lemma EmailExamples()
    ensures ValidEmail("a@b.c")
    ensures ValidEmail("see a@b.c now")
    ensures !ValidEmail("a@b")
    ensures !ValidEmail("a @b.c")
  {
    assert MatchAt("a@b.c", 0, 1, 3, 5);
    ValidEmailInContext("a@b.c", "see ", " now");
    assert "see " + "a@b.c" + " now" == "see a@b.c now";
    if ValidEmail("a@b") {
      ValidEmailShape("a@b");
    }
    var u := "a @b.c";
    forall i | 1 <= i < |u| && u[i] == '@' ensures IsJsWhitespace(u[i - 1]) {
      assert i == 2;
    }
    if ValidEmail(u) {
      VisibleBeforeAt(u);
    }
  }
}
