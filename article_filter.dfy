/** The search and leaning filter that frontend/src/pages/BrowseFeed.jsx
    (lines 157-170) and frontend/src/pages/BrowseRecommendations.jsx (lines
    162-175) apply, in identical code, to the article list before sorting it. */
module ArticleFilter {
  import opened Sequences
  import opened JsText

  /** An article as the pages receive it; `politicalLeaning` is the stored
      text, normally "LEFT", "CENTER" or "RIGHT". */
  datatype ListedArticle = ListedArticle(id: int, headline: string, outlet: string, politicalLeaning: string)

  /** The search test: a search that is blank after trimming keeps every
      article; otherwise the lowercased search text, untrimmed, must occur in
      the lowercased headline or outlet. */
  predicate MatchesSearch(a: ListedArticle, search: string)
  {
    Trim(search) == []
    || Includes(ToLower(a.headline), ToLower(search))
    || Includes(ToLower(a.outlet), ToLower(search))
  }

  /** The leaning test: "All" keeps every article; otherwise the stored
      leaning must equal the selection in upper case. */
  predicate MatchesLeaning(a: ListedArticle, leaning: string)
  {
    leaning == "All" || a.politicalLeaning == ToUpper(leaning)
  }

  /** `articles.filter(...)`. */
  function FilteredArticles(articles: seq<ListedArticle>, search: string, leaning: string): seq<ListedArticle>
  {
    Filter(articles, (a: ListedArticle) => MatchesSearch(a, search) && MatchesLeaning(a, leaning))
  }

  /** The filter keeps exactly the articles passing both tests, as an
      order-preserving subsequence of the list. */
  lemma FilteredArticlesSpec(articles: seq<ListedArticle>, search: string, leaning: string)
    ensures forall a :: a in FilteredArticles(articles, search, leaning) <==>
      a in articles && MatchesSearch(a, search) && MatchesLeaning(a, leaning)
    ensures IsSubsequence(FilteredArticles(articles, search, leaning), articles)
  {
    FilterMembers(articles, (a: ListedArticle) => MatchesSearch(a, search) && MatchesLeaning(a, leaning));
    FilterIsSubsequence(articles, (a: ListedArticle) => MatchesSearch(a, search) && MatchesLeaning(a, leaning));
  }

  /** A search of white space only, with "All" leanings, keeps every article. */
  lemma BlankSearchKeepsAll(articles: seq<ListedArticle>, search: string)
    requires forall i :: 0 <= i < |search| ==> IsJsWhitespace(search[i])
    ensures FilteredArticles(articles, search, "All") == articles
  {
    TrimEmptyIffBlank(search);
    FilterAll(articles, (a: ListedArticle) => MatchesSearch(a, search) && MatchesLeaning(a, "All"));
  }

  /** A non-blank search is a case-insensitive substring test on the headline or the outlet. */
  lemma SearchIsCaseInsensitive(a: ListedArticle, search: string)
    requires exists i :: 0 <= i < |search| && !IsJsWhitespace(search[i])
    ensures MatchesSearch(a, search) <==>
      Includes(ToLower(a.headline), ToLower(search)) || Includes(ToLower(a.outlet), ToLower(search))
    ensures MatchesSearch(a, search) <==> MatchesSearch(a, ToLower(search))
  {
    TrimEmptyIffBlank(search);
    ToLowerIdempotent(search);
    var i :| 0 <= i < |search| && !IsJsWhitespace(search[i]);
    LowerKeepsVisible(search, i);
    TrimEmptyIffBlank(ToLower(search));
  }

  /** Lowercasing never turns a visible character into white space. */
  lemma LowerKeepsVisible(s: string, i: int)
    requires 0 <= i < |s| && !IsJsWhitespace(s[i])
    ensures !IsJsWhitespace(ToLower(s)[i])
  {
  }
}
