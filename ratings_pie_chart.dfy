/** The tallies of frontend/src/graphs/RatingsAndPredictionsPieChart.jsx: a
    count of detections per predicted label, a count of claim checks per
    aggregate verdict, and the chart's own variant of the verdict vote. */
module RatingsPieChart {
  import opened Wrappers
  import opened Sequences
  import opened JsText
  import opened MyClaimChecks

  // ---------------------------------------------------------------------
  // Counters kept in a JavaScript object used as a map from key to number
  // ---------------------------------------------------------------------

  /** `acc[key] || 0`. */
  function Get(counts: map<string, nat>, key: string): nat
  {
    if key in counts then counts[key] else 0
  }

  /** `acc[key] = (acc[key] || 0) + 1`. */
  function Inc(counts: map<string, nat>, key: string): map<string, nat>
  {
    counts[key := Get(counts, key) + 1]
  }

  /** `keys.reduce(increment, init)`. */
  function Counted(init: map<string, nat>, keys: seq<string>): map<string, nat>
  {
    if |keys| == 0 then init else Inc(Counted(init, keys[..|keys| - 1]), keys[|keys| - 1])
  }

  /** Some key of a non-empty counter. */
  ghost function AnyKey(m: map<string, nat>): (k: string)
    requires |m| > 0
    ensures k in m
  {
    assert m.Keys != {};
    var k :| k in m.Keys; k
  }

  /** The sum of all the values of a counter. */
  ghost function SumValues(m: map<string, nat>): nat
    decreases |m|
  {
    if |m| == 0 then 0 else m[AnyKey(m)] + SumValues(m - {AnyKey(m)})
  }

  lemma {:induction false} SumValuesRemove(m: map<string, nat>, k: string)
    requires k in m
    ensures SumValues(m) == m[k] + SumValues(m - {k})
    decreases |m|
  {
    var j := AnyKey(m);
    if j != k {
      SumValuesRemove(m - {j}, k);
      SumValuesRemove(m - {k}, j);
      assert m - {j} - {k} == m - {k} - {j};
    }
  }

  lemma {:induction false} SumValuesZero(m: map<string, nat>)
    requires forall k :: k in m ==> m[k] == 0
    ensures SumValues(m) == 0
    decreases |m|
  {
    if |m| > 0 {
      SumValuesZero(m - {AnyKey(m)});
    }
  }

  /** An increment adds exactly one to the sum. */
  lemma SumValuesInc(m: map<string, nat>, key: string)
    ensures SumValues(Inc(m, key)) == SumValues(m) + 1
  {
    if key in m {
      assert Inc(m, key) == m[key := m[key] + 1];
      SumValuesUpdate(m, key, m[key] + 1);
    } else {
      assert Inc(m, key) == m[key := 1];
      SumValuesInsert(m, key, 1);
    }
  }

  lemma SumValuesUpdate(m: map<string, nat>, key: string, v: nat)
    requires key in m
    ensures SumValues(m[key := v]) == SumValues(m) - m[key] + v
  {
    var m' := m[key := v];
    assert m'.Keys == m.Keys;
    SumValuesRemove(m', key);
    SumValuesRemove(m, key);
    assert m' - {key} == m - {key};
  }

  lemma SumValuesInsert(m: map<string, nat>, key: string, v: nat)
    requires key !in m
    ensures SumValues(m[key := v]) == SumValues(m) + v
  {
    var m' := m[key := v];
    SumValuesRemove(m', key);
    assert m' - {key} == m;
  }

  /** Each counted key adds exactly one: the values grow by the number of keys. */
  lemma {:induction false} CountedSum(init: map<string, nat>, keys: seq<string>)
    ensures SumValues(Counted(init, keys)) == SumValues(init) + |keys|
    decreases |keys|
  {
    if |keys| > 0 {
      CountedSum(init, keys[..|keys| - 1]);
      SumValuesInc(Counted(init, keys[..|keys| - 1]), keys[|keys| - 1]);
    }
  }

  /** The keys are the initial ones and every key counted. */
  lemma {:induction false} CountedKeys(init: map<string, nat>, keys: seq<string>)
    ensures Counted(init, keys).Keys == init.Keys + set k | k in keys
    decreases |keys|
  {
    if |keys| > 0 {
      var init' := keys[..|keys| - 1];
      CountedKeys(init, init');
      assert keys == init' + [keys[|keys| - 1]];
      assert (set k | k in keys) == (set k | k in init') + {keys[|keys| - 1]};
    }
  }

  /** Each key's value is its initial value plus the number of times it was counted. */
  lemma {:induction false} CountedValue(init: map<string, nat>, keys: seq<string>, key: string)
    ensures Get(Counted(init, keys), key) == Get(init, key) + Count(keys, (k: string) => k == key)
    decreases |keys|
  {
    if |keys| > 0 {
      var init' := keys[..|keys| - 1];
      assert keys == init' + [keys[|keys| - 1]];
      CountedValue(init, init', key);
      FilterAppend(init', keys[|keys| - 1], (k: string) => k == key);
    }
  }

  // ---------------------------------------------------------------------
  // The chart's verdict vote
  // ---------------------------------------------------------------------

  /** The chart's decision chain (lines 40-43): no special case for two
      non-zero counters or for a single rating. */
  function PieVerdict(t: Tally): string
  {
    if StrictTrue(t) then "True"
    else if StrictFalse(t) then "False"
    else if StrictMixture(t) then "Misleading"
    else "Inconclusive"
  }

  function PieAggregateOf(ratings: seq<string>): string
  {
    PieVerdict(TallyOf(ratings))
  }

  /** The chart's `getAggregateRating` (lines 22-44). */
  method GetAggregateRating(ratings: seq<string>) returns (r: string)
    ensures r == PieAggregateOf(ratings)
  {
    var trueCount: nat, falseCount: nat, inconclusiveCount: nat := 0, 0, 0;
    for i := 0 to |ratings|
      invariant Tally(trueCount, falseCount, inconclusiveCount) == TallyOf(ratings[..i])
    {
      assert ratings[..i + 1][..i] == ratings[..i];
      var lowerRating := ToLower(ratings[i]);
      if lowerRating in TRUE_TERMS {
        trueCount := trueCount + 1;
      } else if lowerRating in FALSE_TERMS {
        falseCount := falseCount + 1;
      } else if lowerRating in MIXTURE_TERMS {
        inconclusiveCount := inconclusiveCount + 1;
      }
    }
    assert ratings[..|ratings|] == ratings;
    if trueCount > falseCount && trueCount > inconclusiveCount {
      return "True";
    }
    if falseCount > trueCount && falseCount > inconclusiveCount {
      return "False";
    }
    if inconclusiveCount > trueCount && inconclusiveCount > falseCount {
      return "Misleading";
    }
    return "Inconclusive";
  }

  const VERDICTS: seq<string> := ["True", "False", "Misleading", "Inconclusive"]

  /** The chart's vote yields one of the four verdicts, a strict winner exactly
      when one counter is ahead of both others. */
  lemma PieAggregateVerdicts(ratings: seq<string>)
    ensures PieAggregateOf(ratings) in VERDICTS
    ensures PieAggregateOf(ratings) == "True" <==> StrictTrue(TallyOf(ratings))
    ensures PieAggregateOf(ratings) == "False" <==> StrictFalse(TallyOf(ratings))
    ensures PieAggregateOf(ratings) == "Misleading" <==> StrictMixture(TallyOf(ratings))
  {
  }

  /** The chart and the claim-check page agree on every list of ratings
      except a lone unrecognised rating, which the page returns as written
      and the chart calls "Inconclusive". */
  lemma PieAgreesWithClaimChecks(ratings: seq<string>)
    ensures !(|ratings| == 1 && !Recognised(ratings[0])) ==> PieAggregateOf(ratings) == AggregateOf(ratings)
    ensures |ratings| == 1 && !Recognised(ratings[0]) ==>
              PieAggregateOf(ratings) == "Inconclusive" && AggregateOf(ratings) == ratings[0]
  {
    if |ratings| == 1 {
      assert ratings == [ratings[0]];
      AggregateSingle(ratings[0]);
    }
  }

  // ---------------------------------------------------------------------
  // Detection counts (lines 7-14)
  // ---------------------------------------------------------------------

  /** A detection's `final_prediction`: absent (or null) or a string. */
  datatype Detection = Detection(finalPrediction: Option<string>)

  const DETECTION_INIT: map<string, nat> := map["Fake" := 0, "True" := 0, "Uncertain" := 0]

  /** `detection.final_prediction || "Uncertain"`. */
  function PredictionLabel(d: Detection): string
  {
    if d.finalPrediction.None? || d.finalPrediction.value == "" then "Uncertain" else d.finalPrediction.value
  }

  function PredictionLabels(detections: seq<Detection>): (r: seq<string>)
    ensures |r| == |detections|
    ensures forall i :: 0 <= i < |r| ==> r[i] == PredictionLabel(detections[i])
  {
    seq(|detections|, i requires 0 <= i < |detections| => PredictionLabel(detections[i]))
  }

  function DetectionCountsOf(detections: seq<Detection>): map<string, nat>
  {
    Counted(DETECTION_INIT, PredictionLabels(detections))
  }

  /** `detectionCounts`: one `reduce` pass. */
  method DetectionCounts(detections: seq<Detection>) returns (counts: map<string, nat>)
    ensures counts == DetectionCountsOf(detections)
  {
    counts := DETECTION_INIT;
    for i := 0 to |detections|
      invariant counts == Counted(DETECTION_INIT, PredictionLabels(detections[..i]))
    {
      assert PredictionLabels(detections[..i + 1])[..i] == PredictionLabels(detections[..i]);
      var prediction := PredictionLabel(detections[i]);
      counts := counts[prediction := Get(counts, prediction) + 1];
    }
    assert detections[..|detections|] == detections;
  }

  lemma SumDetectionInit()
    ensures SumValues(DETECTION_INIT) == 0
  {
    SumValuesZero(DETECTION_INIT);
  }

  /** The counts add up to the number of detections, every missing or empty
      prediction is counted as "Uncertain", and a prediction outside the three
      initial keys becomes a key of its own. */
  lemma DetectionCountsProperties(detections: seq<Detection>)
    ensures SumValues(DetectionCountsOf(detections)) == |detections|
    ensures DetectionCountsOf(detections).Keys
         == DETECTION_INIT.Keys + set i | 0 <= i < |detections| :: PredictionLabel(detections[i])
    ensures Get(DetectionCountsOf(detections), "Uncertain")
         == Count(PredictionLabels(detections), (k: string) => k == "Uncertain")
  {
    var labels := PredictionLabels(detections);
    CountedSum(DETECTION_INIT, labels);
    SumDetectionInit();
    CountedKeys(DETECTION_INIT, labels);
    assert (set k | k in labels) == set i | 0 <= i < |detections| :: PredictionLabel(detections[i]) by {
      forall k | k in labels ensures exists i :: 0 <= i < |detections| && k == PredictionLabel(detections[i]) {
        var i :| 0 <= i < |labels| && labels[i] == k;
      }
    }
    CountedValue(DETECTION_INIT, labels, "Uncertain");
  }

  /** A detection without a prediction adds one to "Uncertain". */
  lemma MissingPredictionIsUncertain(detections: seq<Detection>, d: Detection)
    requires d.finalPrediction.None? || d.finalPrediction == Some("")
    ensures Get(DetectionCountsOf(detections + [d]), "Uncertain") == Get(DetectionCountsOf(detections), "Uncertain") + 1
    ensures forall k :: k != "Uncertain" ==> Get(DetectionCountsOf(detections + [d]), k) == Get(DetectionCountsOf(detections), k)
  {
    assert PredictionLabels(detections + [d]) == PredictionLabels(detections) + ["Uncertain"];
  }

  // ---------------------------------------------------------------------
  // Claim-check counts (lines 46-53)
  // ---------------------------------------------------------------------

  /** A claim check, reduced to its list of ratings. */
  datatype ClaimCheck = ClaimCheck(ratings: seq<string>)

  const CLAIM_INIT: map<string, nat> := map["True" := 0, "False" := 0, "Misleading" := 0, "Inconclusive" := 0]

  function ClaimLabels(claimChecks: seq<ClaimCheck>): (r: seq<string>)
    ensures |r| == |claimChecks|
    ensures forall i :: 0 <= i < |r| ==> r[i] == PieAggregateOf(claimChecks[i].ratings)
  {
    seq(|claimChecks|, i requires 0 <= i < |claimChecks| => PieAggregateOf(claimChecks[i].ratings))
  }

  function ClaimCountsOf(claimChecks: seq<ClaimCheck>): map<string, nat>
  {
    Counted(CLAIM_INIT, ClaimLabels(claimChecks))
  }

  /** `claimCounts`: one `reduce` pass over the claim checks. */
  method ClaimCounts(claimChecks: seq<ClaimCheck>) returns (counts: map<string, nat>)
    ensures counts == ClaimCountsOf(claimChecks)
  {
    counts := CLAIM_INIT;
    for i := 0 to |claimChecks|
      invariant counts == Counted(CLAIM_INIT, ClaimLabels(claimChecks[..i]))
    {
      assert ClaimLabels(claimChecks[..i + 1])[..i] == ClaimLabels(claimChecks[..i]);
      var rating := GetAggregateRating(claimChecks[i].ratings);
      counts := counts[rating := Get(counts, rating) + 1];
    }
    assert claimChecks[..|claimChecks|] == claimChecks;
  }

  /** The claim counts keep exactly their four initial keys, and their values
      add up to the number of claim checks. */
  lemma ClaimCountsProperties(claimChecks: seq<ClaimCheck>)
    ensures ClaimCountsOf(claimChecks).Keys == CLAIM_INIT.Keys
    ensures SumValues(ClaimCountsOf(claimChecks)) == |claimChecks|
  {
    var labels := ClaimLabels(claimChecks);
    CountedKeys(CLAIM_INIT, labels);
    forall k | k in labels ensures k in CLAIM_INIT {
      var i :| 0 <= i < |labels| && labels[i] == k;
      PieAggregateVerdicts(claimChecks[i].ratings);
    }
    CountedSum(CLAIM_INIT, labels);
    SumValuesZero(CLAIM_INIT);
  }
}
