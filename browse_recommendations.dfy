/** The recommendations page, frontend/src/pages/BrowseRecommendations.jsx:
    the article list it builds from the backend's answers, the page number it
    requests, the leaning options of its filter and the state of its "Get
    Recommendations" button. The articles shown are
    `ArticleFilter.FilteredArticles` of the list; the answer of each request
    is a parameter, `None` when the request throws. */
module BrowseRecommendations {
  import opened Wrappers
  import opened JsText
  import opened ArticleFilter

  lemma UpperRight() ensures ToUpper("Right") == "RIGHT" {}
  lemma UpperCenter() ensures ToUpper("Center") == "CENTER" {}
  lemma UpperLeft() ensures ToUpper("Left") == "LEFT" {}

  /** The options "Right", "Center" and "Left" (lines 351-356) select the
      stored leanings "RIGHT", "CENTER" and "LEFT". */
  lemma LeaningOptions(a: ListedArticle)
    ensures MatchesLeaning(a, "Right") <==> a.politicalLeaning == "RIGHT"
    ensures MatchesLeaning(a, "Center") <==> a.politicalLeaning == "CENTER"
    ensures MatchesLeaning(a, "Left") <==> a.politicalLeaning == "LEFT"
    ensures MatchesLeaning(a, "All")
  {
    UpperRight();
    UpperCenter();
    UpperLeft();
  }

  class RecommendationsPage {
    var articles: seq<ListedArticle>
    var page: int
    var interactionsCount: int

    /** Neither `setPage` nor `setInteractionsCount` is ever called, so the
        initial values stay. */
    predicate Valid()
      reads this
    {
      page == 1 && interactionsCount == 0
    }

    /** `useState([])`, `useState(1)` and `useState(0)` (lines 70-74). */
    constructor()
      ensures articles == [] && Valid()
    {
      articles := [];
      page := 1;
      interactionsCount := 0;
    }

    /** `fetchRecommendations` (lines 229-243): requests `page` and appends
        the answer to the list. */
    method FetchRecommendations(answer: Option<seq<ListedArticle>>) returns (requestedPage: int)
      modifies this
      ensures requestedPage == old(page)
      ensures articles == if answer.Some? then old(articles) + answer.value else old(articles)
      ensures page == old(page) && interactionsCount == old(interactionsCount)
      ensures old(Valid()) ==> Valid() && requestedPage == 1
    {
      requestedPage := page;
      if answer.Some? {
        articles := articles + answer.value;
      }
    }

    /** `fetchRandomArticles` (lines 215-227): replaces the list. */
    method FetchRandomArticles(answer: Option<seq<ListedArticle>>)
      modifies this
      ensures articles == if answer.Some? then answer.value else old(articles)
      ensures page == old(page) && interactionsCount == old(interactionsCount)
    {
      if answer.Some? {
        articles := answer.value;
      }
    }

    /** `checkUserStatus` (lines 197-213): random articles for a "new" user,
        recommendations otherwise. */
    method LoadForStatus(status: Option<string>, answer: Option<seq<ListedArticle>>)
      modifies this
      ensures status == Some("new") ==> articles == if answer.Some? then answer.value else old(articles)
      ensures status != Some("new") ==> articles == if answer.Some? then old(articles) + answer.value else old(articles)
      ensures page == old(page) && interactionsCount == old(interactionsCount)
    {
      if status == Some("new") {
        FetchRandomArticles(answer);
      } else {
        var _ := FetchRecommendations(answer);
      }
    }

    /** `isDisabled={interactionsCount < 3}` (line 441). */
    function ButtonDisabled(): (disabled: bool)
      reads this
      ensures Valid() ==> disabled
    {
      interactionsCount < 3
    }
  }

  /** Two fetches request page 1 both times and append both answers. */
  method FetchTwice(p: RecommendationsPage, first: seq<ListedArticle>, second: seq<ListedArticle>)
    returns (pages: seq<int>)
    requires p.Valid()
    modifies p
    ensures pages == [1, 1]
    ensures p.articles == old(p.articles) + first + second
    ensures p.Valid() && p.ButtonDisabled()
  {
    var a := p.FetchRecommendations(Some(first));
    var b := p.FetchRecommendations(Some(second));
    pages := [a, b];
  }
}
