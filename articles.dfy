/** The corpus row of the recommender (the columns of the article table that
    the recommendation pipeline reads or returns). */
module Articles {

  datatype Leaning = LEFT | CENTER | RIGHT

  /** One article. `day` is the publication date as a day number (days since
      an epoch); the pipeline only compares calendar dates. */
  datatype Article = Article(
    id: int,
    day: int,
    headline: string,
    outlet: string,
    url: string,
    leaning: Leaning)

  /** The ways the pipeline of backend/models/recommendation_function.py
      fails. `SourceNotFound`: no corpus row carries the requested id (the
      `IndexError` of line 50). `NonPositiveNeighbourCount`: the neighbour
      count `min(top_n * 3, len(window))` is not positive, which the
      nearest-neighbour index refuses. `NeighbourOutOfRange`: the index
      returned a position outside the window (`iloc` raises). `EmptyCandidates`:
      no neighbour is left after dropping the first, so `iloc[0]` in
      `enforce_political_diversity` raises. */
  datatype PipelineError =
    | SourceNotFound
    | NonPositiveNeighbourCount
    | NeighbourOutOfRange
    | EmptyCandidates

  /** No two rows share an identifier. */
  ghost predicate UniqueIds(s: seq<Article>)
  {
    forall i, j :: 0 <= i < |s| && 0 <= j < |s| && s[i].id == s[j].id ==> i == j
  }

  /** The identifiers of the rows of `s`. */
  function Ids(s: seq<Article>): set<int>
  {
    set a | a in s :: a.id
  }
}
