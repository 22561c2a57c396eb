/** The fact-check verdict helpers of frontend/src/pages/MyClaimChecks.jsx:
    the vote that turns the ratings of a claim's fact checks into one
    aggregate verdict, and the colour and icon chosen for a rating. The
    copies in frontend/src/pages/Profile.jsx are the same code and are
    modelled by the same members. */
module MyClaimChecks {
  import opened Wrappers
  import opened JsText
  import opened Sequences

  const TRUE_TERMS: seq<string> := ["true", "yes", "verdadero", "si"]
  const FALSE_TERMS: seq<string> :=
    ["false", "incorrect", "not true", "no", "fake", "falso", "incorrecto", "no verdadero"]
  /** The terms the page counts as `inconclusive` and colours orange. */
  const MIXTURE_TERMS: seq<string> :=
    ["mixture", "altered", "misleading", "enga\U{00F1}oso", "alterado", "descontextualizado", "sin contexto"]

  /** The three term lists share no term. */
  lemma TermListsDisjoint()
    ensures forall t :: t in TRUE_TERMS ==> t !in FALSE_TERMS && t !in MIXTURE_TERMS
    ensures forall t :: t in FALSE_TERMS ==> t !in MIXTURE_TERMS
  {
  }

  datatype Bucket = TrueBucket | FalseBucket | MixtureBucket

  /** The bucket a lowercased rating is counted in, lists tried in the order
      true, false, inconclusive; because the lists are disjoint, the order
      changes nothing. */
  function BucketOf(lower: string): Option<Bucket>
  {
    if lower in TRUE_TERMS then Some(TrueBucket)
    else if lower in FALSE_TERMS then Some(FalseBucket)
    else if lower in MIXTURE_TERMS then Some(MixtureBucket)
    else None
  }

  lemma BucketOfCharacterized(lower: string)
    ensures BucketOf(lower) == Some(TrueBucket) <==> lower in TRUE_TERMS
    ensures BucketOf(lower) == Some(FalseBucket) <==> lower in FALSE_TERMS
    ensures BucketOf(lower) == Some(MixtureBucket) <==> lower in MIXTURE_TERMS
  {
    TermListsDisjoint();
  }

  /** The three counters of `getAggregateRating`. */
  datatype Tally = Tally(trues: nat, falses: nat, mixtures: nat)
  {
    function Total(): nat { trues + falses + mixtures }
  }

  function Bump(t: Tally, b: Option<Bucket>): Tally
  {
    match b
    case None => t
    case Some(TrueBucket) => t.(trues := t.trues + 1)
    case Some(FalseBucket) => t.(falses := t.falses + 1)
    case Some(MixtureBucket) => t.(mixtures := t.mixtures + 1)
  }

  /** The counters after the ratings have been lowercased and counted in order. */
  function TallyOf(ratings: seq<string>): Tally
  {
    if |ratings| == 0 then Tally(0, 0, 0)
    else Bump(TallyOf(ratings[..|ratings| - 1]), BucketOf(ToLower(ratings[|ratings| - 1])))
  }

  predicate Recognised(rating: string)
  {
    BucketOf(ToLower(rating)).Some?
  }

  /** Every rating is counted in at most one bucket: the counters add up to
      the number of recognised ratings. */
  lemma {:induction false} TallyTotal(ratings: seq<string>)
    ensures TallyOf(ratings).Total() == |Filter(ratings, Recognised)| <= |ratings|
    decreases |ratings|
  {
    if |ratings| > 0 {
      var init := ratings[..|ratings| - 1];
      var last := ratings[|ratings| - 1];
      assert ratings == init + [last];
      TallyTotal(init);
      FilterAppend(init, last, Recognised);
    }
  }

  /** One vote is strictly ahead of both others. */
  predicate StrictTrue(t: Tally) { t.trues > t.falses && t.trues > t.mixtures }
  predicate StrictFalse(t: Tally) { t.falses > t.trues && t.falses > t.mixtures }
  predicate StrictMixture(t: Tally) { t.mixtures > t.trues && t.mixtures > t.falses }

  /** Exactly two of the counters are non-zero. */
  predicate TwoNonZero(t: Tally)
  {
    (t.trues > 0 && t.falses > 0 && t.mixtures == 0)
    || (t.trues > 0 && t.mixtures > 0 && t.falses == 0)
    || (t.falses > 0 && t.mixtures > 0 && t.trues == 0)
  }

  /** The decision chain after counting (lines 172-187). */
  function Verdict(t: Tally, ratings: seq<string>): string
  {
    if StrictTrue(t) then "True"
    else if StrictFalse(t) then "False"
    else if StrictMixture(t) then "Misleading"
    else if TwoNonZero(t) then "Inconclusive"
    else if |ratings| == 1 then ratings[0]
    else "Inconclusive"
  }

  /** What `getAggregateRating` returns for a list of ratings. */
  function AggregateOf(ratings: seq<string>): string
  {
    Verdict(TallyOf(ratings), ratings)
  }

  /** `getAggregateRating` (lines 149-188): three counters bumped in one pass. */
  method GetAggregateRating(ratings: seq<string>) returns (r: string)
    ensures r == AggregateOf(ratings)
  {
    var normalized := seq(|ratings|, i requires 0 <= i < |ratings| => ToLower(ratings[i]));
    var trueCount: nat, falseCount: nat, inconclusiveCount: nat := 0, 0, 0;
    for i := 0 to |normalized|
      invariant Tally(trueCount, falseCount, inconclusiveCount) == TallyOf(ratings[..i])
    {
      assert ratings[..i + 1][..i] == ratings[..i];
      var rating := normalized[i];
      if rating in TRUE_TERMS {
        trueCount := trueCount + 1;
      } else if rating in FALSE_TERMS {
        falseCount := falseCount + 1;
      } else if rating in MIXTURE_TERMS {
        inconclusiveCount := inconclusiveCount + 1;
      }
    }
    assert ratings[..|ratings|] == ratings;
    if trueCount > falseCount && trueCount > inconclusiveCount {
      return "True";
    } else if falseCount > trueCount && falseCount > inconclusiveCount {
      return "False";
    } else if inconclusiveCount > trueCount && inconclusiveCount > falseCount {
      return "Misleading";
    } else if (trueCount > 0 && falseCount > 0 && inconclusiveCount == 0)
           || (trueCount > 0 && inconclusiveCount > 0 && falseCount == 0)
           || (falseCount > 0 && inconclusiveCount > 0 && trueCount == 0) {
      return "Inconclusive";
    } else if |normalized| == 1 {
      return ratings[0];
    }
    return "Inconclusive";
  }

  /** The verdict names "True", "False" and "Misleading" are recognised ratings. */
  lemma VerdictNamesRecognised()
    ensures BucketOf(ToLower("True")) == Some(TrueBucket)
    ensures BucketOf(ToLower("False")) == Some(FalseBucket)
    ensures BucketOf(ToLower("Misleading")) == Some(MixtureBucket)
  {
    LowerTrue();
    LowerFalse();
    LowerMisleading();
  }

  lemma LowerTrue() ensures BucketOf(ToLower("True")) == Some(TrueBucket)
  {
    LowerCaseTrue();
    BucketTrue();
  }

  lemma LowerCaseTrue() ensures ToLower("True") == "true" {}
  lemma BucketTrue() ensures BucketOf("true") == Some(TrueBucket) {}

  lemma LowerFalse() ensures BucketOf(ToLower("False")) == Some(FalseBucket)
  {
    LowerCaseFalse();
    BucketFalse();
  }

  lemma LowerCaseFalse() ensures ToLower("False") == "false" {}
  lemma BucketFalse() ensures BucketOf("false") == Some(FalseBucket) {}

  lemma LowerMisleading() ensures BucketOf(ToLower("Misleading")) == Some(MixtureBucket)
  {
    LowerCaseMisleading();
    BucketMisleading();
  }

  lemma LowerCaseMisleading() ensures ToLower("Misleading") == "misleading" {}
  lemma BucketMisleading() ensures BucketOf("misleading") == Some(MixtureBucket) {}

  lemma LowerInconclusive() ensures BucketOf(ToLower("Inconclusive")) == None
  {
    LowerCaseInconclusive();
    BucketInconclusive();
  }

  lemma LowerCaseInconclusive() ensures ToLower("Inconclusive") == "inconclusive" {}
  lemma BucketInconclusive() ensures BucketOf("inconclusive") == None {}

  lemma TallySingle(rating: string)
    ensures TallyOf([rating]) == Bump(Tally(0, 0, 0), BucketOf(ToLower(rating)))
  {
    assert [rating][..0] == [];
  }

  /** "True", "False" and "Misleading" come out exactly when that vote is
      strictly ahead of both others. */
  lemma AggregateStrictWinner(ratings: seq<string>)
    ensures AggregateOf(ratings) == "True" <==> StrictTrue(TallyOf(ratings))
    ensures AggregateOf(ratings) == "False" <==> StrictFalse(TallyOf(ratings))
    ensures AggregateOf(ratings) == "Misleading" <==> StrictMixture(TallyOf(ratings))
  {
    AggregateNoWinner(ratings);
    VerdictNamesRecognised();
  }

  /** Without a strict winner the verdict is "Inconclusive", except that a
      lone unrecognised rating is returned as it was written; two non-zero
      counters always give "Inconclusive". */
  lemma AggregateNoWinner(ratings: seq<string>)
    ensures var t := TallyOf(ratings);
            !StrictTrue(t) && !StrictFalse(t) && !StrictMixture(t) ==>
              || AggregateOf(ratings) == "Inconclusive"
              || (|ratings| == 1 && !Recognised(ratings[0]) && AggregateOf(ratings) == ratings[0])
    ensures var t := TallyOf(ratings);
            !StrictTrue(t) && !StrictFalse(t) && !StrictMixture(t) && TwoNonZero(t) ==>
              AggregateOf(ratings) == "Inconclusive"
  {
    var t := TallyOf(ratings);
    VerdictNoWinner(t, ratings);
    if |ratings| == 1 {
      assert ratings == [ratings[0]];
      SingleWithoutWinner(ratings[0]);
    }
  }

  /** A single rating without a strict winner is an unrecognised one. */
  lemma SingleWithoutWinner(rating: string)
    ensures var t := TallyOf([rating]);
            !StrictTrue(t) && !StrictFalse(t) && !StrictMixture(t) ==> !Recognised(rating)
  {
    AggregateSingle(rating);
  }

  /** The decision chain without a strict winner. */
  lemma VerdictNoWinner(t: Tally, ratings: seq<string>)
    ensures !StrictTrue(t) && !StrictFalse(t) && !StrictMixture(t) ==>
              Verdict(t, ratings) == "Inconclusive" || (|ratings| == 1 && Verdict(t, ratings) == ratings[0])
    ensures !StrictTrue(t) && !StrictFalse(t) && !StrictMixture(t) && TwoNonZero(t) ==>
              Verdict(t, ratings) == "Inconclusive"
  {
  }

  /** A single rating: a recognised one always wins the strict vote, an
      unrecognised one is returned verbatim, in its original case. */
  lemma AggregateSingle(rating: string)
    ensures BucketOf(ToLower(rating)) == Some(TrueBucket) ==> AggregateOf([rating]) == "True"
    ensures BucketOf(ToLower(rating)) == Some(FalseBucket) ==> AggregateOf([rating]) == "False"
    ensures BucketOf(ToLower(rating)) == Some(MixtureBucket) ==> AggregateOf([rating]) == "Misleading"
    ensures BucketOf(ToLower(rating)) == None ==> AggregateOf([rating]) == rating
    ensures var t := TallyOf([rating]);
            Recognised(rating) <==> StrictTrue(t) || StrictFalse(t) || StrictMixture(t)
  {
    TallySingle(rating);
  }

  /** The remaining cases: no ratings, a three-way tie, or several ratings
      none of which is recognised. */
  lemma {:induction false} AggregateFallbacks(ratings: seq<string>)
    ensures ratings == [] ==> AggregateOf(ratings) == "Inconclusive"
    ensures var t := TallyOf(ratings);
            t.trues == t.falses == t.mixtures ==> AggregateOf(ratings) == "Inconclusive" || |ratings| == 1
    ensures |ratings| >= 2 && (forall i :: 0 <= i < |ratings| ==> !Recognised(ratings[i])) ==>
              AggregateOf(ratings) == "Inconclusive"
  {
    if |ratings| >= 2 && (forall i :: 0 <= i < |ratings| ==> !Recognised(ratings[i])) {
      FilterNone(ratings, Recognised);
      TallyTotal(ratings);
    }
  }

  /** `getRatingColor` (lines 120-134): exact, lowercased membership in the
      lists, tried false, true, mixture. */
  function RatingColor(rating: string): (c: string)
    ensures c == "red" <==> ToLower(rating) in FALSE_TERMS
    ensures c == "green" <==> ToLower(rating) in TRUE_TERMS
    ensures c == "orange" <==> ToLower(rating) in MIXTURE_TERMS
    ensures c == "gray" <==> BucketOf(ToLower(rating)) == None
  {
    var lowerRating := ToLower(rating);
    TermListsDisjoint();
    BucketOfCharacterized(lowerRating);
    if lowerRating in FALSE_TERMS then "red"
    else if lowerRating in TRUE_TERMS then "green"
    else if lowerRating in MIXTURE_TERMS then "orange"
    else if lowerRating == "inconclusive" then "gray"
    else "gray"
  }

  datatype Icon = WarningTwoIcon | CheckCircleIcon | WarningIcon | InfoIcon

  /** `getRatingIcon` (lines 136-147): the same case split as the colour. */
  function RatingIcon(rating: string): (i: Icon)
    ensures i == WarningTwoIcon <==> RatingColor(rating) == "red"
    ensures i == CheckCircleIcon <==> RatingColor(rating) == "green"
    ensures i == WarningIcon <==> RatingColor(rating) == "orange"
    ensures i == InfoIcon <==> RatingColor(rating) == "gray"
  {
    var lowerRating := ToLower(rating);
    if lowerRating in FALSE_TERMS then WarningTwoIcon
    else if lowerRating in TRUE_TERMS then CheckCircleIcon
    else if lowerRating in MIXTURE_TERMS then WarningIcon
    else InfoIcon
  }

  /** The four verdicts are shown green, red, orange and gray. */
  lemma VerdictColors()
    ensures RatingColor("True") == "green" && RatingColor("False") == "red"
    ensures RatingColor("Misleading") == "orange" && RatingColor("Inconclusive") == "gray"
  {
    VerdictNamesRecognised();
    LowerInconclusive();
    BucketOfCharacterized(ToLower("True"));
    BucketOfCharacterized(ToLower("False"));
    BucketOfCharacterized(ToLower("Misleading"));
  }
}
