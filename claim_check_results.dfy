/** The colour and icon of a rating on frontend/src/pages/ClaimCheckResults.jsx.
    Unlike the claim-check list, this page tests whether the lowercased
    rating CONTAINS a term of a list (`some(term => lower.includes(term))`),
    the false list first, then the true list, then the mixture list. */
module ClaimCheckResults {
  import opened JsText
  import MyClaimChecks

  /** Some term of the list occurs in the text. */
  predicate ContainsAny(text: string, terms: seq<string>)
  {
    exists t :: t in terms && Includes(text, t)
  }

  /** `getRatingColor` (lines 199-210). */
  function RatingColor(rating: string): (c: string)
    ensures c in ["red", "green", "orange", "gray"]
    ensures c == "red" <==> ContainsAny(ToLower(rating), MyClaimChecks.FALSE_TERMS)
    ensures c == "green" <==> !ContainsAny(ToLower(rating), MyClaimChecks.FALSE_TERMS)
                              && ContainsAny(ToLower(rating), MyClaimChecks.TRUE_TERMS)
    ensures c == "orange" <==> !ContainsAny(ToLower(rating), MyClaimChecks.FALSE_TERMS)
                               && !ContainsAny(ToLower(rating), MyClaimChecks.TRUE_TERMS)
                               && ContainsAny(ToLower(rating), MyClaimChecks.MIXTURE_TERMS)
    ensures c == "gray" <==> !ContainsAny(ToLower(rating), MyClaimChecks.FALSE_TERMS)
                             && !ContainsAny(ToLower(rating), MyClaimChecks.TRUE_TERMS)
                             && !ContainsAny(ToLower(rating), MyClaimChecks.MIXTURE_TERMS)
  {
    var lowerRating := ToLower(rating);
    if ContainsAny(lowerRating, MyClaimChecks.FALSE_TERMS) then "red"
    else if ContainsAny(lowerRating, MyClaimChecks.TRUE_TERMS) then "green"
    else if ContainsAny(lowerRating, MyClaimChecks.MIXTURE_TERMS) then "orange"
    else "gray"
  }

  /** `getRatingIcon` (lines 212-223): the same three tests in the same order,
      so icon and colour always correspond. */
  function RatingIcon(rating: string): (i: MyClaimChecks.Icon)
    ensures i == MyClaimChecks.WarningTwoIcon <==> RatingColor(rating) == "red"
    ensures i == MyClaimChecks.CheckCircleIcon <==> RatingColor(rating) == "green"
    ensures i == MyClaimChecks.WarningIcon <==> RatingColor(rating) == "orange"
    ensures i == MyClaimChecks.InfoIcon <==> RatingColor(rating) == "gray"
  {
    var lowerRating := ToLower(rating);
    if ContainsAny(lowerRating, MyClaimChecks.FALSE_TERMS) then MyClaimChecks.WarningTwoIcon
    else if ContainsAny(lowerRating, MyClaimChecks.TRUE_TERMS) then MyClaimChecks.CheckCircleIcon
    else if ContainsAny(lowerRating, MyClaimChecks.MIXTURE_TERMS) then MyClaimChecks.WarningIcon
    else MyClaimChecks.InfoIcon
  }

  /** A rating containing a false term is red whatever else it contains; in
      particular every rating containing "no" is red. */
  lemma FalseTermWins(rating: string, t: string)
    requires t in MyClaimChecks.FALSE_TERMS && Includes(ToLower(rating), t)
    ensures RatingColor(rating) == "red"
  {
  }

  lemma ContainsNoIsRed(rating: string)
    requires Includes(ToLower(rating), "no")
    ensures RatingColor(rating) == "red"
  {
    FalseTermWins(rating, "no");
  }

  /** "unknown", the rating written when a claim has none, is shown red. */
  lemma UnknownIsRed(rating: string)
    requires ToLower(rating) == "unknown"
    ensures RatingColor(rating) == "red"
  {
    assert OccursAt("unknown", "no", 3);
    IncludesAt("unknown", "no", 3);
    ContainsNoIsRed(rating);
  }

  /** "not true" contains "true" but is red: the false list comes first. */
  lemma NotTrueIsRed(rating: string)
    requires ToLower(rating) == "not true"
    ensures Includes(ToLower(rating), "true")
    ensures RatingColor(rating) == "red"
  {
    assert OccursAt("not true", "true", 4);
    IncludesAt("not true", "true", 4);
    IncludesTrivial("not true");
    FalseTermWins(rating, "not true");
  }

  /** A text that lacks one character of a term does not include the term. */
  lemma MissingCharacter(text: string, t: string, k: nat)
    requires k < |t| && t[k] !in text
    ensures !Includes(text, t)
  {
    if Includes(text, t) {
      IncludesCharacter(text, t, k);
    }
  }

  /** A text with no adjacent "n", "o" does not include "no". */
  lemma MissingNo(text: string)
    requires forall i :: 0 <= i < |text| - 1 ==> !(text[i] == 'n' && text[i + 1] == 'o')
    ensures !Includes(text, "no")
  {
    if Includes(text, "no") {
      IncludesPair(text, "no");
    }
  }

  /** Every false term holds an "f" or an "r", or is "no". */
  lemma NoFalseTerm(s: string)
    requires 'f' !in s && 'r' !in s && !Includes(s, "no")
    ensures !ContainsAny(s, MyClaimChecks.FALSE_TERMS)
  {
    forall t | t in MyClaimChecks.FALSE_TERMS ensures !Includes(s, t) {
      if t == "false" {
        MissingCharacter(s, "false", 0);
      } else if t == "incorrect" {
        MissingCharacter(s, "incorrect", 5);
      } else if t == "not true" {
        MissingCharacter(s, "not true", 5);
      } else if t == "no" {
      } else if t == "fake" {
        MissingCharacter(s, "fake", 0);
      } else if t == "falso" {
        MissingCharacter(s, "falso", 0);
      } else if t == "incorrecto" {
        MissingCharacter(s, "incorrecto", 5);
      } else {
        MissingCharacter(s, "no verdadero", 5);
      }
    }
  }

  /** The two twelve-letter ratings "inconclusive" and "sin contexto" hold
      neither 'f' nor 'r' nor "no", so they contain no false term. */
  lemma NoFalseTermInTwelve(s: string)
    requires s == "inconclusive" || s == "sin contexto"
    ensures !ContainsAny(s, MyClaimChecks.FALSE_TERMS)
  {
    forall i | 0 <= i < |s| ensures s[i] != 'f' && s[i] != 'r' {
      assert i == 0 || i == 1 || i == 2 || i == 3 || i == 4 || i == 5 || i == 6 || i == 7 || i == 8 || i == 9 || i == 10 || i == 11;
    }
    forall i | 0 <= i < |s| - 1 ensures !(s[i] == 'n' && s[i + 1] == 'o') {
      assert i == 0 || i == 1 || i == 2 || i == 3 || i == 4 || i == 5 || i == 6 || i == 7 || i == 8 || i == 9 || i == 10;
    }
    MissingNo(s);
    NoFalseTerm(s);
  }

  /** "inconclusive" contains no false term but contains "si", so it is green. */
  lemma InconclusiveIsGreen(rating: string)
    requires ToLower(rating) == "inconclusive"
    ensures RatingColor(rating) == "green"
  {
    NoFalseTermInTwelve("inconclusive");
    assert OccursAt("inconclusive", "si", 8);
    IncludesAt("inconclusive", "si", 8);
  }

  /** The mixture term "sin contexto" starts with the true term "si": this
      page shows it green where the claim-check list, which matches exactly,
      shows it orange. */
  lemma SinContextoIsGreen(rating: string)
    requires ToLower(rating) == "sin contexto"
    ensures RatingColor(rating) == "green"
    ensures MyClaimChecks.RatingColor(rating) == "orange"
  {
    NoFalseTermInTwelve("sin contexto");
    assert OccursAt("sin contexto", "si", 0);
    IncludesAt("sin contexto", "si", 0);
  }
}
