/** The adaptive publication-date window of `recommend_articles_bias_controlled`
    (backend/models/recommendation_function.py, lines 50-65): start with the
    days within `base_days_window` of the source article's date and widen by
    one day on each side while the window holds fewer than the target number
    of rows and its half-width is below `max_days_window`. */
module TimeWindow {
  import opened Sequences
  import opened Articles

  function Within(reference: int, halfWidth: int): Article -> bool
  {
    (a: Article) => reference - halfWidth <= a.day <= reference + halfWidth
  }

  /** The corpus rows dated between `reference - halfWidth` and
      `reference + halfWidth`, both included, in corpus order. */
  function WindowAt(corpus: seq<Article>, reference: int, halfWidth: int): seq<Article>
  {
    Filter(corpus, Within(reference, halfWidth))
  }

  /** The half-width at which the widening loop stops, starting from `halfWidth`. */
  function Widen(corpus: seq<Article>, reference: int, halfWidth: int, maxHalfWidth: int, target: int): int
    decreases maxHalfWidth - halfWidth
  {
    if |WindowAt(corpus, reference, halfWidth)| < target && halfWidth < maxHalfWidth
    then Widen(corpus, reference, halfWidth + 1, maxHalfWidth, target)
    else halfWidth
  }

  /** Lines 53-65: the widening loop. */
  method SelectWindow(corpus: seq<Article>, reference: int, baseHalfWidth: int, maxHalfWidth: int, target: int)
    returns (window: seq<Article>, halfWidth: int)
    ensures halfWidth == Widen(corpus, reference, baseHalfWidth, maxHalfWidth, target)
    ensures window == WindowAt(corpus, reference, halfWidth)
  {
    halfWidth := baseHalfWidth;
    window := WindowAt(corpus, reference, halfWidth);
    while |window| < target && halfWidth < maxHalfWidth
      invariant window == WindowAt(corpus, reference, halfWidth)
      invariant Widen(corpus, reference, halfWidth, maxHalfWidth, target)
             == Widen(corpus, reference, baseHalfWidth, maxHalfWidth, target)
      decreases maxHalfWidth - halfWidth
    {
      halfWidth := halfWidth + 1;
      window := WindowAt(corpus, reference, halfWidth);
    }
  }

  /** A wider window keeps every row of a narrower one. */
  lemma {:induction false} WindowGrows(corpus: seq<Article>, reference: int, narrow: int, wide: int)
    requires narrow <= wide
    ensures forall x :: x in WindowAt(corpus, reference, narrow) ==> x in WindowAt(corpus, reference, wide)
    ensures |WindowAt(corpus, reference, narrow)| <= |WindowAt(corpus, reference, wide)|
    decreases |corpus|
  {
    FilterMembers(corpus, Within(reference, narrow));
    FilterMembers(corpus, Within(reference, wide));
    if |corpus| > 0 {
      var c' := corpus[..|corpus| - 1];
      var x := corpus[|corpus| - 1];
      assert corpus == c' + [x];
      WindowGrows(c', reference, narrow, wide);
      FilterAppend(c', x, Within(reference, narrow));
      FilterAppend(c', x, Within(reference, wide));
      assert Within(reference, narrow)(x) ==> Within(reference, wide)(x);
    }
  }

  /** The window is exactly the rows dated within the half-width. */
  lemma WindowMembers(corpus: seq<Article>, reference: int, halfWidth: int)
    ensures forall x :: x in WindowAt(corpus, reference, halfWidth)
              <==> x in corpus && reference - halfWidth <= x.day <= reference + halfWidth
  {
    FilterMembers(corpus, Within(reference, halfWidth));
  }

  /** The loop stops at the first half-width, from the base one on, whose
      window is large enough or which has reached the maximum; it never
      shrinks the base window and never widens past the maximum. */
  lemma {:induction false} WidenCharacterized(corpus: seq<Article>, reference: int, halfWidth: int, maxHalfWidth: int, target: int)
    ensures var w := Widen(corpus, reference, halfWidth, maxHalfWidth, target);
            && halfWidth <= w <= Max(halfWidth, maxHalfWidth)
            && (|WindowAt(corpus, reference, w)| >= target || w >= maxHalfWidth)
            && (forall v :: halfWidth <= v < w ==>
                  |WindowAt(corpus, reference, v)| < target && v < maxHalfWidth)
    decreases maxHalfWidth - halfWidth
  {
    if |WindowAt(corpus, reference, halfWidth)| < target && halfWidth < maxHalfWidth {
      WidenCharacterized(corpus, reference, halfWidth + 1, maxHalfWidth, target);
    }
  }

  /** A row dated on the reference day is in every window of non-negative half-width. */
  lemma ReferenceRowInWindow(corpus: seq<Article>, reference: int, halfWidth: int, i: nat)
    requires i < |corpus| && corpus[i].day == reference && halfWidth >= 0
    ensures corpus[i] in WindowAt(corpus, reference, halfWidth)
  {
    WindowMembers(corpus, reference, halfWidth);
  }
}
