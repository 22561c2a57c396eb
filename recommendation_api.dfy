/** The interaction-to-source policy of the `/user/generate-recommendations`
    handler (backend/api/app.py, lines 53-112): select the user's interactions
    newer than the last request, sort them into liked, disliked and
    long-read articles, run the recommender from every liked or read
    article, and drop recommended rows whose id the user disliked.

    The database is not modelled: the interaction log, the stored
    timestamp and the headline table are parameters, and the rows the
    handler would insert are its result. */
module RecommendationApi {
  import opened Sequences
  import opened Articles
  import opened Wrappers
  import opened Recommender

  /** Minimum reading time, in seconds, for a read to count as interest (line 19). */
  const READ_TIME_THRESHOLD: int := 120
  /** The default look-back when no recommendation was requested before (line 61). */
  const SECONDS_PER_DAY: int := 86400
  const FALLBACK_HEADLINE: string := "an article you engaged with"
  const NO_VALID_ARTICLES: string := "No valid articles for recommendations. Try liking or reading some articles first."

  /** A row of `user_interactions`; `timestamp` is in seconds and
      `readTimeSeconds` is `None` for a NULL column. */
  datatype Interaction = Interaction(
    userId: int,
    newsId: int,
    kind: string,
    readTimeSeconds: Option<int>,
    timestamp: int)

  datatype Classified = Classified(liked: set<int>, disliked: set<int>, read: set<int>)

  /** What makes the handler fail with status 500: comparing a NULL reading
      time with the threshold raises `TypeError`, and any error of the
      recommender propagates. */
  datatype HandlerError = MissingReadTime | Pipeline(cause: PipelineError)

  /** One stored recommendation: the recommended row and the headline of the
      article it was recommended from. */
  datatype RecommendationRow = RecommendationRow(article: Article, sourceHeadline: string)

  datatype Response =
    | NoValidArticles
    | InternalError(error: HandlerError)
    | Recommendations(rows: seq<RecommendationRow>)

  function StatusCode(r: Response): (code: int)
    ensures code == 200 <==> r.Recommendations?
    ensures code == 400 <==> r.NoValidArticles?
    ensures code == 500 <==> r.InternalError?
  {
    match r
    case NoValidArticles => 400
    case InternalError(_) => 500
    case Recommendations(_) => 200
  }

  /** Lines 58-61: the stored timestamp, or 24 hours before `now`. */
  function Cutoff(lastRecommendation: Option<int>, now: int): (c: int)
    ensures lastRecommendation.Some? ==> c == lastRecommendation.value
    ensures lastRecommendation.None? ==> c == now - SECONDS_PER_DAY
  {
    match lastRecommendation
    case Some(t) => t
    case None => now - SECONDS_PER_DAY
  }

  function NewFor(userId: int, cutoff: int): Interaction -> bool
  {
    (x: Interaction) => x.userId == userId && x.timestamp > cutoff
  }

  /** The query of lines 64-68: the user's interactions strictly after the cutoff. */
  function NewInteractions(log: seq<Interaction>, userId: int, cutoff: int): seq<Interaction>
  {
    Filter(log, NewFor(userId, cutoff))
  }

  /** One iteration of the classification loop (lines 77-83). */
  function Classify1(c: Classified, x: Interaction): Result<Classified, HandlerError>
  {
    if x.kind == "like" then Success(c.(liked := c.liked + {x.newsId}))
    else if x.kind == "dislike" then Success(c.(disliked := c.disliked + {x.newsId}))
    else if x.kind == "read" then
      match x.readTimeSeconds
      case None => Failure(MissingReadTime)
      case Some(t) => if t >= READ_TIME_THRESHOLD then Success(c.(read := c.read + {x.newsId})) else Success(c)
    else Success(c)
  }

  /** The three sets after the loop has seen `xs`. */
  function Classify(xs: seq<Interaction>): Result<Classified, HandlerError>
  {
    if |xs| == 0 then Success(Classified({}, {}, {}))
    else match Classify(xs[..|xs| - 1])
      case Failure(e) => Failure(e)
      case Success(c) => Classify1(c, xs[|xs| - 1])
  }

  /** Line 86: the articles recommendations start from. */
  function Sources(c: Classified): set<int>
  {
    c.liked + c.read
  }

  /** Lines 95-97: the stored headline, or the fallback text. */
  function SourceHeadline(headlines: map<int, string>, id: int): (h: string)
    ensures id in headlines ==> h == headlines[id]
    ensures id !in headlines ==> h == FALLBACK_HEADLINE
  {
    if id in headlines then headlines[id] else FALLBACK_HEADLINE
  }

  /** Lines 102-112: the recommended rows whose id is not disliked, tagged
      with the source headline, in the recommender's order. */
  function Kept(rows: seq<Article>, disliked: set<int>, headline: string): seq<RecommendationRow>
  {
    if |rows| == 0 then []
    else Kept(rows[..|rows| - 1], disliked, headline)
         + (if rows[|rows| - 1].id !in disliked then [RecommendationRow(rows[|rows| - 1], headline)] else [])
  }

  /** What one source article contributes (lines 95-112), with the
      recommender's default parameters. */
  function FromSource(id: int, disliked: set<int>, corpus: seq<Article>, headlines: map<int, string>,
                      knn: (seq<Article>, nat, int) -> seq<int>): Result<seq<RecommendationRow>, PipelineError>
  {
    match Recommend(corpus, id, DEFAULT_PRIMARY_WEIGHT, DEFAULT_TOP_N, DEFAULT_BASE_DAYS_WINDOW, DEFAULT_MAX_DAYS_WINDOW, knn)
    case Failure(e) => Failure(e)
    case Success(rec) => Success(Kept(rec.rows, disliked, SourceHeadline(headlines, id)))
  }

  /** `FromSource` as a function of the source id alone. */
  function ContributionOf(disliked: set<int>, corpus: seq<Article>, headlines: map<int, string>,
                          knn: (seq<Article>, nat, int) -> seq<int>): int -> Result<seq<RecommendationRow>, PipelineError>
  {
    id => FromSource(id, disliked, corpus, headlines, knn)
  }

  /** The loop of lines 94-112 over the sources taken in the order `order`,
      each contributing `contribution(id)`; the first failing source ends
      the request. */
  function Gather(order: seq<int>, contribution: int -> Result<seq<RecommendationRow>, PipelineError>)
    : Result<seq<RecommendationRow>, PipelineError>
  {
    if |order| == 0 then Success([])
    else match Gather(order[..|order| - 1], contribution)
      case Failure(e) => Failure(e)
      case Success(acc) =>
        match contribution(order[|order| - 1])
        case Failure(e) => Failure(e)
        case Success(rows) => Success(acc + rows)
  }

  /** `order` lists every element of `s` exactly once. */
  ghost predicate IsEnumeration(order: seq<int>, s: set<int>)
  {
    && (forall i, j :: 0 <= i < j < |order| ==> order[i] != order[j])
    && (forall i :: 0 <= i < |order| ==> order[i] in s)
    && (forall x :: x in s ==> x in order)
  }

  /** The handler's answer for the new interactions `xs` when the source set
      is iterated in the order `order`. */
  function Respond(xs: seq<Interaction>, order: seq<int>, corpus: seq<Article>, headlines: map<int, string>,
                   knn: (seq<Article>, nat, int) -> seq<int>): Response
  {
    match Classify(xs)
    case Failure(e) => InternalError(e)
    case Success(c) =>
      if Sources(c) == {} then NoValidArticles
      else match Gather(order, ContributionOf(c.disliked, corpus, headlines, knn))
        case Failure(e) => InternalError(Pipeline(e))
        case Success(rows) => Recommendations(rows)
  }

  /** Some enumeration of a finite set. */
  ghost function Enumerate(s: set<int>): (r: seq<int>)
    ensures IsEnumeration(r, s)
    decreases |s|
  {
    if s == {} then []
    else
      NonEmptyHasElement(s);
      var x :| x in s;
      var rest := Enumerate(s - {x});
      assert forall i :: 0 <= i < |rest| ==> rest[i] != x;
      [x] + rest
  }

  lemma NonEmptyHasElement(s: set<int>)
    requires s != {}
    ensures exists x :: x in s
  {
    if forall x :: x !in s {
      assert false;
    }
  }

  method ClassifyInteractions(xs: seq<Interaction>) returns (r: Result<Classified, HandlerError>)
    ensures r == Classify(xs)
  {
    var liked: set<int> := {};
    var disliked: set<int> := {};
    var read: set<int> := {};
    for k := 0 to |xs|
      invariant Classify(xs[..k]) == Success(Classified(liked, disliked, read))
    {
      var x := xs[k];
      assert xs[..k + 1][..k] == xs[..k];
      if x.kind == "like" {
        liked := liked + {x.newsId};
      } else if x.kind == "dislike" {
        disliked := disliked + {x.newsId};
      } else if x.kind == "read" {
        if x.readTimeSeconds.None? {
          ClassifyFailurePersists(xs, k + 1);
          return Failure(MissingReadTime);
        }
        if x.readTimeSeconds.value >= READ_TIME_THRESHOLD {
          read := read + {x.newsId};
        }
      }
    }
    assert xs[..|xs|] == xs;
    r := Success(Classified(liked, disliked, read));
  }

  /** The inner loop of lines 102-112 for one source. */
  method KeepRows(rows: seq<Article>, disliked: set<int>, headline: string) returns (kept: seq<RecommendationRow>)
    ensures kept == Kept(rows, disliked, headline)
  {
    kept := [];
    for j := 0 to |rows|
      invariant kept == Kept(rows[..j], disliked, headline)
    {
      assert rows[..j + 1][..j] == rows[..j];
      if rows[j].id !in disliked {
        kept := kept + [RecommendationRow(rows[j], headline)];
      }
    }
    assert rows[..|rows|] == rows;
  }

  /** The outer loop of lines 94-112. The iteration order of the Python set
      of sources is unspecified; the method picks any and reports it as
      `order`. */
  method GatherFromSources(sources: set<int>, disliked: set<int>, corpus: seq<Article>, headlines: map<int, string>,
                           knn: (seq<Article>, nat, int) -> seq<int>)
    returns (result: Result<seq<RecommendationRow>, PipelineError>, ghost order: seq<int>)
    ensures IsEnumeration(order, sources)
    ensures result == Gather(order, ContributionOf(disliked, corpus, headlines, knn))
  {
    ghost var contribution := ContributionOf(disliked, corpus, headlines, knn);
    order := [];
    var pending := sources;
    var recommendations: seq<RecommendationRow> := [];
    while pending != {}
      invariant Visited(order, pending, sources)
      invariant Gather(order, contribution) == Success(recommendations)
      decreases |pending|
    {
      NonEmptyHasElement(pending);
      var id :| id in pending;
      var headline := if id in headlines then headlines[id] else FALLBACK_HEADLINE;
      var recommended := RecommendArticlesBiasControlled(corpus, id, DEFAULT_PRIMARY_WEIGHT, DEFAULT_TOP_N,
                                                         DEFAULT_BASE_DAYS_WINDOW, DEFAULT_MAX_DAYS_WINDOW, knn);
      GatherExtend(order, id, contribution);
      if recommended.Failure? {
        ghost var rest := Enumerate(pending - {id});
        GatherFailurePersists(order + [id], rest, contribution);
        EnumerationCompleted(order, id, rest, pending, sources);
        order := order + [id] + rest;
        return Failure(recommended.error), order;
      }
      var kept := KeepRows(recommended.value.rows, disliked, headline);
      assert contribution(id) == Success(kept);
      recommendations := recommendations + kept;
      VisitedStep(order, id, pending, sources);
      order := order + [id];
      pending := pending - {id};
    }
    result := Success(recommendations);
  }

  /** One more source: its contribution is appended, or its failure ends the request. */
  lemma GatherExtend(order: seq<int>, id: int, contribution: int -> Result<seq<RecommendationRow>, PipelineError>)
    ensures Gather(order + [id], contribution)
         == match Gather(order, contribution)
            case Failure(e) => Failure(e)
            case Success(acc) =>
              match contribution(id)
              case Failure(e) => Failure(e)
              case Success(rows) => Success(acc + rows)
  {
    assert (order + [id])[..|order|] == order;
  }

  /** The sources are split into those visited, once each and in `order`,
      and those still `pending`. */
  ghost predicate Visited(order: seq<int>, pending: set<int>, sources: set<int>)
  {
    && pending <= sources
    && (forall i :: 0 <= i < |order| ==> order[i] in sources && order[i] !in pending)
    && (forall i, j :: 0 <= i < j < |order| ==> order[i] != order[j])
    && (forall x :: x in sources ==> x in pending || x in order)
  }

  /** Visiting a pending source moves it from `pending` to the end of `order`. */
  lemma VisitedStep(order: seq<int>, id: int, pending: set<int>, sources: set<int>)
    requires Visited(order, pending, sources) && id in pending
    ensures Visited(order + [id], pending - {id}, sources)
  {
  }

  /** Lists the sources still pending after those already visited. */
  lemma EnumerationCompleted(order: seq<int>, id: int, rest: seq<int>, pending: set<int>, sources: set<int>)
    requires Visited(order, pending, sources) && id in pending
    requires IsEnumeration(rest, pending - {id})
    ensures IsEnumeration(order + [id] + rest, sources)
  {
    var all := order + [id] + rest;
    forall i, j | 0 <= i < j < |all| ensures all[i] != all[j] {
      if j > |order| && i < |order| {
        assert all[j] == rest[j - |order| - 1];
        assert all[j] in pending;
      }
      if j > |order| && i > |order| {
        assert all[i] == rest[i - |order| - 1];
      }
    }
    forall x | x in sources ensures x in all {
      if x in order {
        var i :| 0 <= i < |order| && order[i] == x;
        assert all[i] == x;
      } else if x == id {
        assert all[|order|] == x;
      } else {
        assert x in pending - {id};
        var i :| 0 <= i < |rest| && rest[i] == x;
        assert all[|order| + 1 + i] == x;
      }
    }
    forall i | 0 <= i < |all| ensures all[i] in sources {
      if i > |order| {
        assert all[i] == rest[i - |order| - 1];
      }
    }
  }

  /** `generate_recommendations`, lines 53-112: the selection of new
      interactions, their classification, the 400 answer for an empty source
      set and the gathering of recommendations; any error ends in a 500. */
  method GenerateRecommendations(log: seq<Interaction>, userId: int, lastRecommendation: Option<int>, now: int,
                                 corpus: seq<Article>, headlines: map<int, string>,
                                 knn: (seq<Article>, nat, int) -> seq<int>)
    returns (response: Response, ghost order: seq<int>)
    ensures var xs := NewInteractions(log, userId, Cutoff(lastRecommendation, now));
            && (Classify(xs).Success? ==> IsEnumeration(order, Sources(Classify(xs).value)))
            && response == Respond(xs, order, corpus, headlines, knn)
  {
    var xs := NewInteractions(log, userId, Cutoff(lastRecommendation, now));
    var classified := ClassifyInteractions(xs);
    if classified.Failure? {
      return InternalError(classified.error), [];
    }
    var sources := classified.value.liked + classified.value.read;
    if sources == {} {
      return NoValidArticles, [];
    }
    var gathered;
    gathered, order := GatherFromSources(sources, classified.value.disliked, corpus, headlines, knn);
    if gathered.Failure? {
      return InternalError(Pipeline(gathered.error)), order;
    }
    response := Recommendations(gathered.value);
  }

  // ---------------------------------------------------------------------
  // Properties of the policy

  lemma {:induction false} ClassifyFailurePersists(xs: seq<Interaction>, k: nat)
    requires k <= |xs| && Classify(xs[..k]).Failure?
    ensures Classify(xs) == Classify(xs[..k])
    decreases |xs| - k
  {
    if k < |xs| {
      assert xs[..k + 1][..k] == xs[..k];
      ClassifyFailurePersists(xs, k + 1);
    } else {
      assert xs[..k] == xs;
    }
  }

  lemma {:induction false} GatherFailurePersists(a: seq<int>, b: seq<int>,
                                                 contribution: int -> Result<seq<RecommendationRow>, PipelineError>)
    requires Gather(a, contribution).Failure?
    ensures Gather(a + b, contribution) == Gather(a, contribution)
    decreases |b|
  {
    if |b| == 0 {
      assert a + b == a;
    } else {
      GatherFailurePersists(a, b[..|b| - 1], contribution);
      assert (a + b)[..|a + b| - 1] == a + b[..|b| - 1];
    }
  }

  /** The classification, stated per interaction: an article is liked
      (disliked) exactly when some interaction likes (dislikes) it, and read
      exactly when some read lasted at least 120 seconds; shorter reads and
      other kinds are ignored. The loop fails exactly when some read has no
      reading time. */
  lemma {:induction false} ClassifyCharacterized(xs: seq<Interaction>)
    ensures Classify(xs).Failure? <==>
              exists i :: 0 <= i < |xs| && xs[i].kind == "read" && xs[i].readTimeSeconds.None?
    ensures Classify(xs).Success? ==>
              var c := Classify(xs).value;
              && (forall id :: id in c.liked <==> exists i :: 0 <= i < |xs| && xs[i].kind == "like" && xs[i].newsId == id)
              && (forall id :: id in c.disliked <==> exists i :: 0 <= i < |xs| && xs[i].kind == "dislike" && xs[i].newsId == id)
              && (forall id :: id in c.read <==>
                    exists i :: 0 <= i < |xs| && xs[i].kind == "read" && xs[i].newsId == id
                                && xs[i].readTimeSeconds.Some? && xs[i].readTimeSeconds.value >= READ_TIME_THRESHOLD)
    decreases |xs|
  {
    if |xs| > 0 {
      var xs' := xs[..|xs| - 1];
      var x := xs[|xs| - 1];
      ClassifyCharacterized(xs');
      assert forall i :: 0 <= i < |xs'| ==> xs'[i] == xs[i];
      if Classify(xs').Failure? {
        var i :| 0 <= i < |xs'| && xs'[i].kind == "read" && xs'[i].readTimeSeconds.None?;
        assert xs[i] == xs'[i];
      }
    }
  }

  /** An article both liked and disliked is still a source. */
  lemma LikedAndDislikedIsSource(xs: seq<Interaction>, id: int, i: nat, j: nat)
    requires Classify(xs).Success?
    requires i < |xs| && xs[i].kind == "like" && xs[i].newsId == id
    requires j < |xs| && xs[j].kind == "dislike" && xs[j].newsId == id
    ensures id in Sources(Classify(xs).value) && id in Classify(xs).value.disliked
  {
    ClassifyCharacterized(xs);
  }

  /** No liked article and no long read: the 400 answer, with nothing recommended. */
  lemma NoSourcesRefused(xs: seq<Interaction>, order: seq<int>, corpus: seq<Article>, headlines: map<int, string>,
                         knn: (seq<Article>, nat, int) -> seq<int>)
    requires forall i :: 0 <= i < |xs| ==>
               xs[i].kind != "like"
               && (xs[i].kind == "read" ==> xs[i].readTimeSeconds.Some? && xs[i].readTimeSeconds.value < READ_TIME_THRESHOLD)
    ensures Respond(xs, order, corpus, headlines, knn) == NoValidArticles
    ensures StatusCode(Respond(xs, order, corpus, headlines, knn)) == 400
  {
    ClassifyCharacterized(xs);
    var c := Classify(xs).value;
    forall id ensures id !in c.liked && id !in c.read {
      if id in c.liked || id in c.read {
        assert false;
      }
    }
    assert Sources(c) == {};
  }

  lemma {:induction false} KeptMembers(rows: seq<Article>, disliked: set<int>, headline: string)
    ensures forall r :: r in Kept(rows, disliked, headline) <==>
              r.sourceHeadline == headline && r.article in rows && r.article.id !in disliked
    decreases |rows|
  {
    if |rows| > 0 {
      var rows' := rows[..|rows| - 1];
      assert rows == rows' + [rows[|rows| - 1]];
      KeptMembers(rows', disliked, headline);
    }
  }

  /** With no disliked row, every row is kept, in order. */
  lemma {:induction false} KeptAll(rows: seq<Article>, disliked: set<int>, headline: string)
    requires forall i :: 0 <= i < |rows| ==> rows[i].id !in disliked
    ensures |Kept(rows, disliked, headline)| == |rows|
    ensures forall i :: 0 <= i < |rows| ==> Kept(rows, disliked, headline)[i] == RecommendationRow(rows[i], headline)
    decreases |rows|
  {
    if |rows| > 0 {
      KeptAll(rows[..|rows| - 1], disliked, headline);
    }
  }

  /** Every stored recommendation avoids the disliked ids. */
  lemma {:induction false} GatherAvoidsDisliked(order: seq<int>, disliked: set<int>,
                                                contribution: int -> Result<seq<RecommendationRow>, PipelineError>)
    requires forall id :: contribution(id).Success? ==>
               forall r :: r in contribution(id).value ==> r.article.id !in disliked
    ensures Gather(order, contribution).Success? ==>
              forall r :: r in Gather(order, contribution).value ==> r.article.id !in disliked
    decreases |order|
  {
    if |order| > 0 {
      GatherAvoidsDisliked(order[..|order| - 1], disliked, contribution);
    }
  }

  /** One source's rows avoid the disliked ids. */
  lemma FromSourceAvoidsDisliked(id: int, disliked: set<int>, corpus: seq<Article>, headlines: map<int, string>,
                                 knn: (seq<Article>, nat, int) -> seq<int>)
    ensures FromSource(id, disliked, corpus, headlines, knn).Success? ==>
              forall r :: r in FromSource(id, disliked, corpus, headlines, knn).value ==> r.article.id !in disliked
  {
    var rec := Recommend(corpus, id, DEFAULT_PRIMARY_WEIGHT, DEFAULT_TOP_N, DEFAULT_BASE_DAYS_WINDOW, DEFAULT_MAX_DAYS_WINDOW, knn);
    if rec.Success? {
      KeptMembers(rec.value.rows, disliked, SourceHeadline(headlines, id));
    }
  }

  /** The results of the sources are concatenated in iteration order, with
      no deduplication: an article recommended from two sources is stored twice. */
  lemma {:induction false} GatherConcat(a: seq<int>, b: seq<int>,
                                        contribution: int -> Result<seq<RecommendationRow>, PipelineError>)
    requires Gather(a + b, contribution).Success?
    ensures Gather(a, contribution).Success? && Gather(b, contribution).Success?
    ensures Gather(a + b, contribution).value == Gather(a, contribution).value + Gather(b, contribution).value
    decreases |b|
  {
    if |b| == 0 {
      assert a + b == a;
    } else {
      var b' := b[..|b| - 1];
      assert (a + b)[..|a + b| - 1] == a + b';
      assert (a + b)[|a + b| - 1] == b[|b| - 1];
      GatherConcat(a, b', contribution);
    }
  }

  /** A source without a stored headline labels its rows with the fallback text. */
  lemma FallbackHeadlineUsed(id: int, disliked: set<int>, corpus: seq<Article>, headlines: map<int, string>,
                             knn: (seq<Article>, nat, int) -> seq<int>)
    requires id !in headlines
    requires FromSource(id, disliked, corpus, headlines, knn).Success?
    ensures forall r :: r in FromSource(id, disliked, corpus, headlines, knn).value ==> r.sourceHeadline == FALLBACK_HEADLINE
  {
    var rec := Recommend(corpus, id, DEFAULT_PRIMARY_WEIGHT, DEFAULT_TOP_N, DEFAULT_BASE_DAYS_WINDOW, DEFAULT_MAX_DAYS_WINDOW, knn);
    KeptMembers(rec.value.rows, disliked, FALLBACK_HEADLINE);
  }

  /** Whatever the iteration order, a successful answer never recommends a disliked article. */
  lemma ResponseAvoidsDisliked(xs: seq<Interaction>, order: seq<int>, corpus: seq<Article>, headlines: map<int, string>,
                               knn: (seq<Article>, nat, int) -> seq<int>)
    ensures var r := Respond(xs, order, corpus, headlines, knn);
            r.Recommendations? ==>
              forall row :: row in r.rows ==> row.article.id !in Classify(xs).value.disliked
  {
    if Classify(xs).Success? {
      var disliked := Classify(xs).value.disliked;
      forall id ensures FromSource(id, disliked, corpus, headlines, knn).Success? ==>
                          forall r :: r in FromSource(id, disliked, corpus, headlines, knn).value ==> r.article.id !in disliked {
        FromSourceAvoidsDisliked(id, disliked, corpus, headlines, knn);
      }
      GatherAvoidsDisliked(order, disliked, ContributionOf(disliked, corpus, headlines, knn));
    }
  }

  /** Only the user's own interactions strictly after the cutoff are considered. */
  lemma NewInteractionsMembers(log: seq<Interaction>, userId: int, cutoff: int)
    ensures forall x :: x in NewInteractions(log, userId, cutoff) <==>
              x in log && x.userId == userId && x.timestamp > cutoff
  {
    FilterMembers(log, NewFor(userId, cutoff));
  }
}
