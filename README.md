# Political Horizon: a verified model of the recommender and its page logic

Political Horizon is a news reader that recommends articles across the
political spectrum. This project models:

- **The bias-controlled recommender.** It takes an adaptive date window
  around a source article and asks a nearest-neighbour index for similar
  articles. It then applies three steps in order: political-diversity quotas
  (primary leaning plus two secondaries), a greedy cap of two rows per outlet,
  and a final cut to `top_n`.
- **The recommendation endpoint's interaction policy.** Interactions are sorted
  into liked, disliked and long-read articles. Every liked or read article is
  a source, and disliked ids are dropped from the results.
- **The frontend page logic.**
  - The claim-check verdict vote, with its colours and icons.
  - The rating pie chart's counters.
  - Date suffixes and formats.
  - Admin dashboard state: user status, the two-day check, recent tables and
    deletions.
  - Password strength.
  - E-mail and password validation.
  - The sign-up and reset guards.
  - The feed's like/dislike/read toggle map and counter.
  - The article and balance-report filters.

Each source file is one module. Shared vocabulary lives in its own modules:

| module | holds |
|---|---|
| `Articles` | the article record and pipeline errors |
| `Sequences` | `Filter`, subsequences, the Python `head` and slice |
| `Wrappers` | `Option` and `Result` |
| `JsText` | the JavaScript string operations the pages use |
| `Records` | user and balance-report rows |
| `TimeWindow` | the date window of the recommender |

Imperative source code is modelled as methods with loop invariants. Each
such method is proved equal to a specification function, and the source's
promises are proved as lemmas about that function:

- `FairnessReRanking`, `EnforcePoliticalDiversity`, `SelectWindow`,
  `ClassifyInteractions`, `GatherFromSources`, `GetAggregateRating`,
  `DetectionCounts` and `EvaluatePasswordStrength` are methods of this kind.
- Pages whose state is updated in place are classes with `modifies` clauses:
  `AdminProfile.Dashboard`, `BrowseFeed.FeedInteractions` and
  `BrowseRecommendations.RecommendationsPage`.

Some inputs the code reads from outside become parameters:

- The nearest-neighbour search is the parameter `knn`. Given the window, the
  query's position and a neighbour count, it returns window positions.
- Dates are integer day numbers.
- The clock is the parameter `now`.
- The database contents are the parameters `log` and `headlines`.
- The outcome of each HTTP request is a boolean or `Option` parameter.

The code and the design notes disagree in one place: when
`top_n - primary_weight` is even, the quotas add up to `top_n + 1`. The
Python slice `[:top_n - len(selected)]` can then be negative, so
`enforce_political_diversity` can return more than `top_n` rows. The model
follows the code. `Diversity.DiversifyEvenOverflow` proves the exact output
length in that case, `Diversity.DiversifyLength` covers the odd case (the
defaults 2 and 5), and the final `head(top_n)` still bounds the pipeline's
result (`Recommender.RecommendBounded`).

## Model

| member | source | states |
|---|---|---|
| Fairness.FairnessReRanking | backend/models/recommendation_function.py:6-15 | The loop with its outlet counter computes the greedy cap: the result is an order-preserving subsequence of the input, and no outlet occurs more than `max(max_per_outlet, 0)` times |
| Fairness.CappedIsSubsequence | backend/models/recommendation_function.py:10-13 | The capped rows are a subsequence of the input rows |
| Fairness.CappedRespectsCap | backend/models/recommendation_function.py:11 | For a non-negative cap, every outlet occurs at most `cap` times in the result |
| Fairness.CappedProperties | backend/models/recommendation_function.py:6-15 | Subsequence and per-outlet bound together, for any cap |
| Fairness.CappedNonPositive | backend/models/recommendation_function.py:11 | A cap of zero or less keeps no row |
| Fairness.CappedDropRule | backend/models/recommendation_function.py:10-13 | Row `i` is kept exactly when fewer than `cap` rows of its outlet were kept before it; when it is dropped, exactly `cap` were |
| Fairness.CappedFixpoint | backend/models/recommendation_function.py:10-13 | A list that already respects the cap is returned unchanged |
| Fairness.CappedIdempotent | backend/models/recommendation_function.py:10-13 | Re-ranking twice equals re-ranking once |
| Fairness.CappedSingleOutlet | backend/models/recommendation_function.py:10-13 | Rows all from one outlet are cut to their first `cap` |
| Diversity.Secondaries | backend/models/recommendation_function.py:20-25 | LEFT gives (CENTER, RIGHT), RIGHT gives (CENTER, LEFT), CENTER gives (LEFT, RIGHT); all three leanings are distinct |
| Diversity.Quotas | backend/models/recommendation_function.py:27-32 | Three quotas with distinct leanings; the primary gets `primary_weight`; the first secondary gets one more than the second; the sum is `top_n`, plus one when `top_n - primary_weight` is even |
| Diversity.EnforcePoliticalDiversity | backend/models/recommendation_function.py:17-46 | The quota loop and the top-up compute `Diversify`; an empty input is the `iloc[0]` error |
| Diversity.DiversifyStructure | backend/models/recommendation_function.py:38-44 | With unique ids, the output is each leaning's first `quota` rows in input order, then the remaining rows in input order cut by the Python slice; the picks are distinct input rows |
| Diversity.DiversifyLength | backend/models/recommendation_function.py:29-44 | When `0 <= primary_weight <= top_n` and `top_n - primary_weight` is odd, the output has `min(top_n, len(input))` rows |
| Diversity.DiversifyEvenOverflow | backend/models/recommendation_function.py:29-44 | When the difference is even and every quota can be filled, the output has `max(len(input) - 1, top_n + 1)` rows, more than `top_n` |
| Diversity.DiversifyMeetsQuota | backend/models/recommendation_function.py:38-41 | Each leaning appears at least `min(quota, rows of that leaning)` times in the output |
| Diversity.DiversifyRows | backend/models/recommendation_function.py:34-46 | Every output row is an input row, and unique ids stay unique |
| Diversity.DiversifyDefaultsLeft | backend/models/recommendation_function.py:27-44 | With the defaults (2, 5), a LEFT source and enough rows of each leaning, the output is LEFT, LEFT, CENTER, CENTER, RIGHT |
| Diversity.DiversifyNonEmpty | backend/models/recommendation_function.py:17-46 | For `top_n >= 1` the output is never empty |
| Diversity.WithoutIdsTwice | backend/models/recommendation_function.py:41 | Removing one id set and then another equals removing their union |
| Diversity.OfLeaningUntouched | backend/models/recommendation_function.py:39-41 | Removing ids that no row of a leaning carries leaves that leaning's rows unchanged |
| Diversity.WithoutIdsLength | backend/models/recommendation_function.py:41 | With unique ids, removal shortens the pool by the number of ids it actually holds |
| TimeWindow.SelectWindow | backend/models/recommendation_function.py:53-65 | The widening loop ends at the half-width `Widen` characterises and returns exactly that window |
| TimeWindow.WidenCharacterized | backend/models/recommendation_function.py:60-63 | The final half-width lies between the base and `max(base, max_days_window)`; the window holds at least `3 * top_n` rows or the maximum was reached; every narrower half-width tried was too sparse and below the maximum |
| TimeWindow.WindowMembers | backend/models/recommendation_function.py:57-63 | A row is in the window exactly when it is in the corpus and its day lies in `[ref - w, ref + w]` |
| TimeWindow.WindowGrows | backend/models/recommendation_function.py:60-63 | Widening never loses a row and never shrinks the window |
| TimeWindow.ReferenceRowInWindow | backend/models/recommendation_function.py:50-57 | The source row is in every window of non-negative half-width |
| Recommender.FirstIndexOfId | backend/models/recommendation_function.py:50-82 | The first position carrying the id, or none exactly when no row carries it |
| Recommender.NeighbourSlice | backend/models/recommendation_function.py:86 | Python's `indices[1 : 3 * top_n]` for `stop >= 1` (the only case the recommender reaches): the neighbours after the first, clipped to the list, and never longer than `stop - 1` |
| Recommender.Rows | backend/models/recommendation_function.py:86 | `iloc` on neighbour positions: one window row per position, in the order given |
| Recommender.RecommendArticlesBiasControlled | backend/models/recommendation_function.py:48-98 | The pipeline step by step: window loop, degraded return, kNN, source lookup, slice, diversity, fairness, head; equal to `Recommend` |
| Recommender.UnknownSourceFails | backend/models/recommendation_function.py:50 | An id absent from the corpus is the `IndexError` outcome |
| Recommender.SmallCorpusDegrades | backend/models/recommendation_function.py:68-69 | A corpus smaller than `top_n` always takes the degraded path and returns a window of corpus rows |
| Recommender.DegradedReturnsWindow | backend/models/recommendation_function.py:68-69 | The degraded result is the whole final window in corpus order, shorter than `top_n`, and it contains the source row |
| Recommender.RecommendBounded | backend/models/recommendation_function.py:95 | Every successful result has at most `top_n` rows |
| Recommender.RankedOutletCap | backend/models/recommendation_function.py:92-95 | A ranked result has at most two rows per outlet |
| Recommender.RowsFromWindow | backend/models/recommendation_function.py:53-98 | Every returned row is a corpus row within `max(base, max_days_window)` days of the source |
| Recommender.RowsInWindow | backend/models/recommendation_function.py:65-98 | Every returned row, ranked or degraded, is a row of the final window |
| Recommender.WindowWithinBounds | backend/models/recommendation_function.py:53-65 | Every row of the final window is a corpus row within `max(base, max_days_window)` days of the reference day |
| Recommender.SourceNotRecommended | backend/models/recommendation_function.py:85-86 | With unique ids and a search that returns distinct positions with the query first, the source never appears among well-ranked results |
| Recommender.RankedPathSucceeds | backend/models/recommendation_function.py:72-98 | A present source, a non-negative base window, `top_n >= 2` and a search of the requested size give success, never the empty frame of line 81, and a non-empty ranked result |
| Recommender.CappedHeadNonEmpty | backend/models/recommendation_function.py:92 | The outlet cap keeps the first row of a non-empty list |
| RecommendationApi.Cutoff | backend/api/app.py:58-61 | The stored timestamp when there is one, otherwise now minus 24 hours |
| RecommendationApi.NewInteractionsMembers | backend/api/app.py:64-68 | The interactions used are exactly the user's rows timestamped strictly after the cutoff |
| RecommendationApi.ClassifyInteractions | backend/api/app.py:72-83 | The classification loop computes `Classify` |
| RecommendationApi.ClassifyCharacterized | backend/api/app.py:72-83 | The handler fails exactly when some read has no reading time (the `None >= 120` TypeError). Otherwise liked, disliked and read are exactly the ids with a like, a dislike, or a read of at least 120 seconds; anything else is ignored |
| RecommendationApi.ClassifyFailurePersists | backend/api/app.py:77-83 | A failure in a prefix of the interactions is the failure of the whole run |
| RecommendationApi.LikedAndDislikedIsSource | backend/api/app.py:86 | An article both liked and disliked is still a source, and is also disliked |
| RecommendationApi.NoSourcesRefused | backend/api/app.py:89-90 | With no like and only short reads, the answer is the "No valid articles" error with status 400 |
| RecommendationApi.StatusCode | backend/api/app.py:89-130 | 200 for recommendations, 400 for no valid articles, 500 for an internal error |
| RecommendationApi.SourceHeadline | backend/api/app.py:95-97 | The stored headline of the source, or the fallback "an article you engaged with" |
| RecommendationApi.FallbackHeadlineUsed | backend/api/app.py:95-97 | Every row recommended from a source without a headline row carries the fallback |
| RecommendationApi.KeepRows | backend/api/app.py:101-112 | The filtering loop computes `Kept` |
| RecommendationApi.KeptMembers | backend/api/app.py:102-112 | A kept row is exactly a recommended row whose id is not disliked, labelled with the source headline |
| RecommendationApi.KeptAll | backend/api/app.py:102-112 | With nothing disliked among them, every row is kept in recommender order |
| RecommendationApi.FromSourceAvoidsDisliked | backend/api/app.py:99-112 | No row kept for one source has a disliked id |
| RecommendationApi.GatherFromSources | backend/api/app.py:94-112 | The loop over the source set visits every source once, in some order, and returns the concatenation for that order, or the first failure |
| RecommendationApi.GatherAvoidsDisliked | backend/api/app.py:94-112 | Concatenating per-source results that avoid the disliked ids avoids them |
| RecommendationApi.GatherConcat | backend/api/app.py:94-112 | Results for two runs of sources concatenate with no deduplication, so an article recommended from two sources appears twice |
| RecommendationApi.GatherFailurePersists | backend/api/app.py:94-99 | A source whose recommender call fails aborts the whole answer |
| RecommendationApi.GenerateRecommendations | backend/api/app.py:58-112 | The handler's steps give `Respond` for the filtered interactions and an enumeration of the source set |
| RecommendationApi.ResponseAvoidsDisliked | backend/api/app.py:101-112 | No returned recommendation has a disliked id |
| MyClaimChecks.TermListsDisjoint | frontend/src/pages/MyClaimChecks.jsx:152-156 | The true, false and mixture term lists are pairwise disjoint |
| MyClaimChecks.BucketOfCharacterized | frontend/src/pages/MyClaimChecks.jsx:162-170 | A lowercased rating goes to the true, false or mixture bucket exactly when it is in that list, and to none otherwise |
| MyClaimChecks.TallyTotal | frontend/src/pages/MyClaimChecks.jsx:150-170 | The buckets count exactly the recognised ratings, so never more than the ratings |
| MyClaimChecks.GetAggregateRating | frontend/src/pages/MyClaimChecks.jsx:149-188 | The counting loop and the decision chain compute `AggregateOf` (Profile.jsx:132-172 is the same code) |
| MyClaimChecks.AggregateStrictWinner | frontend/src/pages/MyClaimChecks.jsx:172-177 | "True", "False" or "Misleading" is returned exactly when that bucket strictly exceeds both others |
| MyClaimChecks.AggregateNoWinner | frontend/src/pages/MyClaimChecks.jsx:178-187 | Without a strict winner the verdict is "Inconclusive" or a single unrecognised rating; with two non-zero buckets it is "Inconclusive" |
| MyClaimChecks.AggregateSingle | frontend/src/pages/MyClaimChecks.jsx:184-185 | A single rating yields its bucket's verdict, or itself verbatim when unrecognised; it is recognised exactly when it wins the strict test |
| MyClaimChecks.AggregateFallbacks | frontend/src/pages/MyClaimChecks.jsx:187 | An empty list, and two or more ratings all unrecognised, give "Inconclusive"; a three-way tie gives "Inconclusive" unless there is one rating |
| MyClaimChecks.RatingColor | frontend/src/pages/MyClaimChecks.jsx:120-134 | Exact lowercased membership: red for the false list, green for the true list, orange for the mixture list, gray otherwise (Profile.jsx:103-117 is the same) |
| MyClaimChecks.RatingIcon | frontend/src/pages/MyClaimChecks.jsx:136-147 | The icon follows the colour: WarningTwo for red, CheckCircle for green, Warning for orange, Info for gray |
| MyClaimChecks.VerdictColors | frontend/src/pages/MyClaimChecks.jsx:120-134 | The verdicts True, False, Misleading and Inconclusive are green, red, orange and gray |
| RatingsPieChart.GetAggregateRating | frontend/src/graphs/RatingsAndPredictionsPieChart.jsx:22-44 | The chart's counting loop and decision chain compute `PieAggregateOf` |
| RatingsPieChart.PieAggregateVerdicts | frontend/src/graphs/RatingsAndPredictionsPieChart.jsx:22-44 | Only the four verdicts are returned; each of the first three exactly on a strict plurality |
| RatingsPieChart.PieAgreesWithClaimChecks | frontend/src/graphs/RatingsAndPredictionsPieChart.jsx:40-43 | Agrees with the claim-check vote on every input except a single unrecognised rating, which gives "Inconclusive" here and the rating itself there |
| RatingsPieChart.PredictionLabels | frontend/src/graphs/RatingsAndPredictionsPieChart.jsx:7-14 | One label per detection: its prediction, or "Uncertain" when missing or empty |
| RatingsPieChart.DetectionCounts | frontend/src/graphs/RatingsAndPredictionsPieChart.jsx:7-14 | The `reduce` loop computes `DetectionCountsOf` |
| RatingsPieChart.DetectionCountsProperties | frontend/src/graphs/RatingsAndPredictionsPieChart.jsx:7-14 | Values sum to the number of detections; keys are the three initial ones plus every label seen, so an unknown prediction adds a key; "Uncertain" counts the labels equal to it |
| RatingsPieChart.MissingPredictionIsUncertain | frontend/src/graphs/RatingsAndPredictionsPieChart.jsx:9 | A detection with a missing or empty prediction adds one to "Uncertain" and nothing elsewhere |
| RatingsPieChart.CountedSum | frontend/src/graphs/RatingsAndPredictionsPieChart.jsx:8-12 | Each counted key adds exactly one to the sum of the values |
| RatingsPieChart.CountedKeys | frontend/src/graphs/RatingsAndPredictionsPieChart.jsx:8-12 | Counting adds exactly the counted keys to the map |
| RatingsPieChart.CountedValue | frontend/src/graphs/RatingsAndPredictionsPieChart.jsx:8-12 | A key's final value is its initial value plus its occurrences |
| RatingsPieChart.ClaimLabels | frontend/src/graphs/RatingsAndPredictionsPieChart.jsx:46-53 | One chart verdict per claim check |
| RatingsPieChart.ClaimCounts | frontend/src/graphs/RatingsAndPredictionsPieChart.jsx:46-53 | The `reduce` loop computes `ClaimCountsOf` |
| RatingsPieChart.ClaimCountsProperties | frontend/src/graphs/RatingsAndPredictionsPieChart.jsx:46-53 | Exactly the four initial keys, with values summing to the number of claim checks |
| ClaimCheckResults.RatingColor | frontend/src/pages/ClaimCheckResults.jsx:199-210 | Substring tests on the lowercased rating, in order: red exactly when it contains a false term; green exactly when it contains no false term and a true term; orange exactly when it contains neither a false nor a true term but a mixture term; gray exactly when it contains none of the three |
| ClaimCheckResults.RatingIcon | frontend/src/pages/ClaimCheckResults.jsx:212-223 | Same tests, same order: icon and colour always correspond |
| ClaimCheckResults.FalseTermWins | frontend/src/pages/ClaimCheckResults.jsx:201-202 | A rating containing any false term is red, whatever else it contains |
| ClaimCheckResults.ContainsNoIsRed | frontend/src/pages/ClaimCheckResults.jsx:201 | Every rating containing "no" is red |
| ClaimCheckResults.UnknownIsRed | frontend/src/pages/ClaimCheckResults.jsx:201 | "unknown" contains "no" and is red |
| ClaimCheckResults.NotTrueIsRed | frontend/src/pages/ClaimCheckResults.jsx:201-203 | "not true" contains "true" yet is red |
| ClaimCheckResults.InconclusiveIsGreen | frontend/src/pages/ClaimCheckResults.jsx:203 | "inconclusive" contains no false term but contains "si", so it is green |
| ClaimCheckResults.SinContextoIsGreen | frontend/src/pages/ClaimCheckResults.jsx:199-210 | The mixture term "sin contexto" is green here and orange on the claim-check list |
| Profile.PredictionColor | frontend/src/pages/Profile.jsx:174-178 | "Fake" is red, "True" is green, any other string is orange |
| Profile.DateSuffix | frontend/src/pages/Profile.jsx:196-203 | "st", "nd" and "rd" exactly for last digits 1, 2 and 3 other than 11, 12 and 13; "th" otherwise |
| Profile.DaySuffixOfMonth | frontend/src/pages/Profile.jsx:196-203 | Over 1..31: 1, 21 and 31 take "st"; 2 and 22 take "nd"; 3 and 23 take "rd"; all others, 11 to 13 included, take "th" |
| Profile.SmallFormat | frontend/src/pages/Profile.jsx:205-210 | "small" is DD/MM/YY: two-digit day, two-digit one-based month, last two digits of the year; eight characters |
| Profile.MediumFormat | frontend/src/pages/Profile.jsx:212-217 | "medium" is the full format with the weekday cut to its first three letters |
| AdminProfile.DateSuffixAsOnProfile | frontend/src/pages/AdminProfile.jsx:143-172 | The admin header uses the same suffix rule: 11 to 13 take "th", 1, 21 and 31 take "st", 22 "nd", 23 "rd" |
| AdminProfile.ValidityPartition | frontend/src/pages/AdminProfile.jsx:331-335 | Valid (like, or read of at least 120 s) and not relevant (dislike, or read under 120 s) are disjoint, and exhaustive for like, dislike and read; a read without a time is not relevant |
| AdminProfile.NextStatus | frontend/src/pages/AdminProfile.jsx:337-341 | No valid interaction gives "new"; a valid one turns "new" into "returning" and leaves any other status unchanged |
| AdminProfile.NextStatusSettles | frontend/src/pages/AdminProfile.jsx:330-342 | Applying the status update twice equals applying it once |
| AdminProfile.DayOf | frontend/src/pages/AdminProfile.jsx:475 | The day of an interaction is a prefix of its timestamp with no space in it |
| AdminProfile.DayListMembers | frontend/src/pages/AdminProfile.jsx:468-477 | The listed days are exactly the non-empty days of valid, timestamped interactions |
| AdminProfile.DaySetMembers | frontend/src/pages/AdminProfile.jsx:467-479 | The set of days holds exactly those days |
| AdminProfile.HasTwoDaysIff | frontend/src/pages/AdminProfile.jsx:462-482 | True exactly when two valid interactions carry different non-empty days (so false for an empty list) |
| AdminProfile.SameDayIsOneDay | frontend/src/pages/AdminProfile.jsx:462-482 | Two interactions on the same day never make two days |
| AdminProfile.RecentTables | frontend/src/pages/AdminProfile.jsx:1087-1211 | Each table shows the first `min(2, matches)` matching interactions, in input order, and no interaction appears in both |
| AdminProfile.WithoutUserSpec | frontend/src/pages/AdminProfile.jsx:268 | Deleting a user keeps exactly the users with another id, in order; an absent id changes nothing |
| AdminProfile.WithoutInteractionSpec | frontend/src/pages/AdminProfile.jsx:354 | The same, for interactions |
| AdminProfile.WithoutBalanceReportSpec | frontend/src/pages/AdminProfile.jsx:405 | The same, for balance reports keyed by user id |
| AdminProfile.Dashboard.constructor | frontend/src/pages/AdminProfile.jsx:95-119 | Empty tables and no status |
| AdminProfile.Dashboard.ReceiveInteractions | frontend/src/pages/AdminProfile.jsx:317 | The fetched list replaces the interactions; nothing else changes |
| AdminProfile.Dashboard.UpdateStatus | frontend/src/pages/AdminProfile.jsx:330-342 | The status becomes `NextStatus` of the current interactions; nothing else changes |
| AdminProfile.Dashboard.DeleteUser | frontend/src/pages/AdminProfile.jsx:259-279 | On success the user is filtered out, on failure the table is kept; nothing else changes |
| AdminProfile.Dashboard.DeleteInteraction | frontend/src/pages/AdminProfile.jsx:345-360 | The same, for an interaction |
| AdminProfile.Dashboard.DeleteBalanceReport | frontend/src/pages/AdminProfile.jsx:392-412 | The same, for a balance report |
| AdminProfile.Dashboard.DeleteSelected | frontend/src/pages/AdminProfile.jsx:442-447 | After deleting each selected interaction, exactly those whose deletion succeeded are gone, and the rest stay in order |
| EmailFormat.ValidEmailCore | frontend/src/pages/SignUp.jsx:53 | The unanchored `\S+@\S+\.\S+` holds exactly when some stretch of the text is visible characters, "@", visible characters, ".", visible characters |
| EmailFormat.ValidEmailShape | frontend/src/pages/AccountDetails.jsx:68 | A valid address has an "@" before a "." and at least five characters |
| EmailFormat.ValidEmailInContext | frontend/src/pages/AccountDetails.jsx:68 | Because the pattern is unanchored, a valid address stays valid inside any surrounding text |
| EmailFormat.EmailExamples | frontend/src/pages/SignUp.jsx:53 | "a@b.c" and "see a@b.c now" are accepted; "a@b" and "a @b.c" are refused |
| AccountDetails.EvaluatePasswordStrength | frontend/src/pages/AccountDetails.jsx:222-230 | The score-incrementing steps compute the number of criteria met |
| AccountDetails.CriteriaMetUnfolded | frontend/src/pages/AccountDetails.jsx:222-230 | One point each for length at least 6, an upper-case letter, a lower-case letter, a digit and a symbol |
| AccountDetails.StrengthRange | frontend/src/pages/AccountDetails.jsx:222-230 | The score lies in 0..5; it is 0 only for the empty password; it is 5 exactly when every criterion holds |
| AccountDetails.StrengthLabel | frontend/src/pages/AccountDetails.jsx:246-261 | 1 Weak, 2 Fair, 3 Good, 4 Strong, 5 Very Strong, anything else "Too Short" |
| AccountDetails.PasswordLabels | frontend/src/pages/AccountDetails.jsx:222-261 | "Too Short" is shown only for the empty password; the label is never gray; "Very Strong" means every criterion holds |
| AccountDetails.BarColor | frontend/src/pages/AccountDetails.jsx:371-377 | Red below 3, yellow at 3, green from 4 |
| AccountDetails.TextColor | frontend/src/pages/AccountDetails.jsx:263-273 | Red up to 1, orange for 2 and 3, green for 4 and 5, gray above |
| AccountDetails.SaveChanges | frontend/src/pages/AccountDetails.jsx:94-140 | An invalid e-mail aborts before any request. Otherwise the profile is fetched and an unchanged profile is not updated. The update request is sent exactly when something changed or the profile fetch fails |
| AccountDetails.ResetPasswordAsWritten | frontend/src/pages/AccountDetails.jsx:143-189 | The guards in the code's order: all three fields empty, new equal to old, new different from confirmation. A request is sent only after all pass |
| AccountDetails.ResetPassword | frontend/src/pages/AccountDetails.jsx:143-189 | The guards with any empty field refused. A request is sent only with every field filled, new equal to confirmation and different from old |
| AccountDetails.ResetVersionsAgree | frontend/src/pages/AccountDetails.jsx:144 | The two versions agree whenever the fields are all empty or all filled |
| SignUp.ValidatePassword | frontend/src/pages/SignUp.jsx:54-62 | False when the lowercased password equals the lowercased local part or username; otherwise exactly the pattern |
| SignUp.PasswordPatternOnOneLine | frontend/src/pages/SignUp.jsx:61 | On one line, the unanchored pattern holds exactly for at least six characters with an upper-case letter, a lower-case letter and a digit; no maximum length is enforced |
| SignUp.PasswordPatternNeeds | frontend/src/pages/SignUp.jsx:61 | Any password matching the pattern has six characters, an upper-case letter, a lower-case letter and a digit |
| SignUp.LineBreakSplitsPattern | frontend/src/pages/SignUp.jsx:61 | The criteria must be met within one line: "Ab1\nabcdef" is refused |
| SignUp.LongPasswordAccepted | frontend/src/pages/SignUp.jsx:61 | A password longer than 20 characters that meets the criteria is accepted |
| SignUp.DefaultUsername | frontend/src/pages/SignUp.jsx:90 | A blank username becomes the e-mail's text before the first "@" |
| SignUp.DefaultUsernameCheck | frontend/src/pages/SignUp.jsx:90-105 | With the default username, only the local-part test and the pattern decide |
| SignUp.EmptyDefaultUsername | frontend/src/pages/SignUp.jsx:53-90 | A valid e-mail such as "@a@b.c" yields an empty default username |
| SignUp.HandleSignUp | frontend/src/pages/SignUp.jsx:85-147 | The terms checkbox, e-mail format and password guards run in order and stop before any request. Then the e-mail check is requested, and sign-up only for a new e-mail |
| ArticleFilter.FilteredArticlesSpec | frontend/src/pages/BrowseFeed.jsx:157-170 | An article is kept exactly when it matches the search and the leaning; the result is an order-preserving subsequence |
| ArticleFilter.BlankSearchKeepsAll | frontend/src/pages/BrowseFeed.jsx:157-170 | A white-space-only search with leaning "All" keeps every article |
| ArticleFilter.SearchIsCaseInsensitive | frontend/src/pages/BrowseRecommendations.jsx:162-175 | A non-blank search matches exactly the lowercased headline or outlet containing the lowercased text, whatever the search's case |
| BrowseRecommendations.LeaningOptions | frontend/src/pages/BrowseRecommendations.jsx:351-356 | "Right", "Center" and "Left" select RIGHT, CENTER and LEFT; "All" selects every article |
| BrowseFeed.ToggleEntry | frontend/src/pages/BrowseFeed.jsx:219-272 | Repeating an interaction deletes the entry and decrements the count; a different one replaces it; an unseen article is added and counted |
| BrowseFeed.ToggleFrame | frontend/src/pages/BrowseFeed.jsx:213-278 | Other articles' entries are untouched |
| BrowseFeed.ToggleKeepsCount | frontend/src/pages/BrowseFeed.jsx:74-278 | The count stays equal to the number of keys |
| BrowseFeed.ToggleTwice | frontend/src/pages/BrowseFeed.jsx:219-236 | Applying an interaction twice restores the state, unless a different one was recorded, in which case the entry is gone |
| BrowseFeed.InteractionRequests | frontend/src/pages/BrowseFeed.jsx:219-272 | A delete is sent exactly when an entry exists; a post is sent exactly when the interaction is not a repeat |
| BrowseFeed.RecommendationsGate | frontend/src/pages/BrowseFeed.jsx:286-291 | The refusal message is shown exactly while the count is below 3 |
| BrowseFeed.GateCountsArticles | frontend/src/pages/BrowseFeed.jsx:286-291 | In a consistent state, recommendations open exactly when the user has interacted with three articles |
| BrowseFeed.StaleReadReportMiscounts | frontend/src/pages/BrowseFeed.jsx:102-122 | A like followed by a tab-return read report on the same article leaves a count of 2 for one entry |
| BrowseFeed.ReadReport | frontend/src/pages/BrowseFeed.jsx:102-122 | A read report through the current state keeps the count consistent and is undone by the same toggle |
| BrowseFeed.FeedInteractions.constructor | frontend/src/pages/BrowseFeed.jsx:74-75 | An empty map and a zero count |
| BrowseFeed.FeedInteractions.HandleInteraction | frontend/src/pages/BrowseFeed.jsx:213-278 | When the server is reachable, the state becomes the toggle and the requests are sent; otherwise nothing changes; consistency is preserved |
| BrowseFeed.FeedInteractions.ReportRead | frontend/src/pages/BrowseFeed.jsx:102-122 | A tab-return read report applied to the current state; consistency is preserved |
| BrowseRecommendations.RecommendationsPage.constructor | frontend/src/pages/BrowseRecommendations.jsx:70-74 | No articles, page 1, count 0 |
| BrowseRecommendations.RecommendationsPage.FetchRecommendations | frontend/src/pages/BrowseRecommendations.jsx:230-243 | Appends the fetched list to the articles, always requests page 1, and changes neither page nor count |
| BrowseRecommendations.RecommendationsPage.FetchRandomArticles | frontend/src/pages/BrowseRecommendations.jsx:215-227 | Replaces the articles by the fetched list |
| BrowseRecommendations.RecommendationsPage.LoadForStatus | frontend/src/pages/BrowseRecommendations.jsx:196-213 | A new user gets random articles, any other user appended recommendations |
| BrowseRecommendations.RecommendationsPage.ButtonDisabled | frontend/src/pages/BrowseRecommendations.jsx:441 | Since the count is never updated, the button is always disabled |
| BrowseRecommendations.FetchTwice | frontend/src/pages/BrowseRecommendations.jsx:230-243 | Two fetches both request page 1 and append both lists in order |
| MyBalanceReports.ReportForUser | frontend/src/pages/MyBalanceReports.jsx:89-91 | A report exactly when the user has one, and then a report of that user |
| MyBalanceReports.ReportForUserIsFirst | frontend/src/pages/MyBalanceReports.jsx:89-91 | The report returned is the first one with that user id |
| MyBalanceReports.UsersWithReportsSpec | frontend/src/pages/MyBalanceReports.jsx:93 | Exactly the users with a report, in their original order |
| MyBalanceReports.FilteredUsersSpec | frontend/src/pages/MyBalanceReports.jsx:122-125 | Exactly the users with a report that match both search fields, a subsequence of the users with reports |
| MyBalanceReports.EmptySearchKeepsAll | frontend/src/pages/MyBalanceReports.jsx:122-125 | Both fields empty keep every user with a report |
| MyBalanceReports.IdSearchIsSubstring | frontend/src/pages/MyBalanceReports.jsx:124 | The id search is a substring test on the decimal id: "1" matches user 12 |
| MyBalanceReports.ConfirmDelete | frontend/src/pages/MyBalanceReports.jsx:108-117 | The dashboard's reports lose the selected user's report only when one is selected and the deletion succeeds; nothing else changes |
| JsText.ToLower | frontend/src/pages/MyClaimChecks.jsx:150 | `toLowerCase` maps each character independently and keeps the length |
| JsText.ToLowerIdempotent | frontend/src/pages/BrowseFeed.jsx:160-162 | Lowercasing twice is lowercasing once |
| JsText.IncludesCharacterized | frontend/src/pages/ClaimCheckResults.jsx:201 | `includes` holds exactly when the text occurs at some position |
| JsText.TrimEmptyIffBlank | frontend/src/pages/BrowseFeed.jsx:159 | `trim()` is empty exactly when every character is white space |
| JsText.BeforeFirst | frontend/src/pages/SignUp.jsx:90 | `split(sep)[0]` is the longest prefix without `sep`: the whole text, or the text up to the first `sep` |
| JsText.LastTwoDigits | frontend/src/pages/Profile.jsx:208 | `slice(-2)` of a number of two or more digits is its value modulo 100, padded to two digits |

## Left out

- TF-IDF vectorisation and the cosine nearest-neighbour search (backend/models/recommendation_function.py:72-76, 85) are floating-point library code. They are the parameter `knn`; the lemmas that need more state, as hypotheses, what they assume of it (the requested size, distinct positions, the query first).
- The empty-vocabulary error `TfidfVectorizer` raises on texts with no words is not modelled, because it depends on the text cleaning and the vectoriser.
- pandas date parsing (lines 50-56) is replaced by integer day numbers. Line 56 writes a `date_only` column into the caller's own data frame (in the API, the shared `polusa_balanced` frame), rewriting it on every call; that side effect is not modelled. Line 65 drops the column only from the filtered copy, so no returned row carries it.
- Timestamps in `user_interactions` are modelled as integer seconds compared numerically; the API stores them as SQLite text and compares them as text (backend/api/app.py:67), which agrees with the numeric order only while every stored value has the same format.
- `recommend_articles_bias_controlled` is modelled for the leanings LEFT, CENTER and RIGHT only. Any other stored leaning string would take the `else` branch of line 24, and the model's leaning type cannot hold one.
- A negative position returned by the search would index from the end in `iloc`. The model treats it as an error (`NeighbourOutOfRange`), like a position past the end.
- The SQLite queries, the JWT check, the inserts into the recommendation tables and the timestamp update (backend/api/app.py:21-68, 114-125) are not modelled; the interaction log, the stored timestamp and the headline table are parameters.
- A NULL headline column is not modelled: a stored headline is a string.
- The iteration order of the Python set of sources (backend/api/app.py:94) is unspecified. `RecommendationApi.GatherFromSources` returns, as a ghost value, the order it chose, and the result is stated for that order.
- The `recommended_articles is not None` test (backend/api/app.py:101) is always true, since the recommender returns a data frame on every path; the model has no `None` result.
- `backend/routes/server.js` is not part of this model (Express, SQLite, bcrypt and random shuffles).
- The network requests of every page (`fetch`), timers, `localStorage`, debouncing, React rendering and animation are not modelled. Request outcomes are boolean or `Option` parameters, and the requests a handler sends are returned as values.
- Sorting by date and by `localeCompare` in the article lists is not modelled, because it depends on JavaScript `Date` parsing and locale collation. The filter is modelled before the sort.
- `toLowerCase` / `toUpperCase` are modelled for ASCII and the Latin-1 letters only. Other Unicode case mappings, and UTF-16 lengths, are not modelled.
- The calendar fields that `new Date()` supplies to `getCurrentDate` are parameters. The `useBreakpointValue` choice of format (Profile.jsx:101) is UI.
- `getPredictionIcon` (Profile.jsx:180) returns React components and is not modelled.
- JavaScript's coercion of object keys to strings in the pie chart counters is not modelled: a missing prediction is `None` or the empty string, and keys are strings. The chart data and rendering are not modelled.
- Checkbox-selection state in the claim-check, interaction and user lists is not modelled, because it is UI state with no stated contract. `AdminProfile.Dashboard.DeleteSelected` takes the selection as a parameter.
- AccountDetails.TextColor: states the hue only. The light and dark shades `useColorModeValue` picks (AccountDetails.jsx:264-267) depend on the colour mode, which is UI state.
- Clearing the password fields after a successful reset (AccountDetails.jsx:187-190) and the alert timers are not modelled: they only reset inputs and messages.
- The blur handlers `handleEmailBlur` and `handlePasswordBlur` (SignUp.jsx:151-185) are not modelled separately. They apply the same `ValidEmail` and `ValidatePassword` tests as `HandleSignUp`, show a message, and on a known e-mail redirect to the login page.
- Login.jsx (the same e-mail test as AccountDetails) and Test.jsx (a copy of MyBalanceReports) are not part of this model.

## Findings

| source | as written | input that shows it | evidently intended | confidence | as-written member | corrected member |
|---|---|---|---|---|---|---|
| frontend/src/pages/AccountDetails.jsx:144 | The first guard refuses only when all three fields are empty (`&&`), although its message asks the user to fill in every field | current password "x", new password "", confirmation "": the guards pass and a reset to the empty password is requested | refuse when any field is empty (`\|\|`) | not executed | AccountDetails.EmptyNewPasswordSubmitted | AccountDetails.ResetPassword |
| frontend/src/pages/BrowseFeed.jsx:102-122 | The `visibilitychange` listener is registered once (empty dependency list), so it calls the first render's `handleInteraction`, whose `interactions` map is empty | like an article, open it, return to the tab: the read report sees no earlier interaction, replaces the like and adds one to the count, so the count is 2 with one entry and the three-interaction gate opens early | the report goes through the current state, keeping the count equal to the number of entries | not executed | BrowseFeed.StaleReadReportMiscounts | BrowseFeed.ReadReport |
