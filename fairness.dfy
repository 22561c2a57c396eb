/** The outlet-fairness re-ranker of backend/models/recommendation_function.py
    (`fairness_re_ranking`): a greedy scan that keeps a row only while its
    outlet has been kept fewer than `max_per_outlet` times. */
module Fairness {
  import opened Sequences
  import opened Articles

  /** The default cap of `fairness_re_ranking`. */
  const MAX_PER_OUTLET: int := 2

  /** Number of rows of `s` published by outlet `o`. */
  function OutletCount(s: seq<Article>, o: string): nat
  {
    if |s| == 0 then 0
    else OutletCount(s[..|s| - 1], o) + (if s[|s| - 1].outlet == o then 1 else 0)
  }

  /** A `collections.Counter` lookup: a missing key counts as zero. */
  function CounterGet(counts: map<string, nat>, key: string): nat
  {
    if key in counts then counts[key] else 0
  }

  /** The rows the greedy scan keeps: the last row of `s` is kept exactly when
      fewer than `cap` rows of its outlet were kept from the rows before it. */
  function Capped(s: seq<Article>, cap: int): seq<Article>
  {
    if |s| == 0 then []
    else
      var kept := Capped(s[..|s| - 1], cap);
      var row := s[|s| - 1];
      if OutletCount(kept, row.outlet) < cap then kept + [row] else kept
  }

  lemma OutletCountAppend(s: seq<Article>, x: Article)
    ensures forall o :: OutletCount(s + [x], o) == OutletCount(s, o) + (if x.outlet == o then 1 else 0)
  {
    assert (s + [x])[..|s|] == s;
  }

  lemma CappedAppend(s: seq<Article>, x: Article, cap: int)
    ensures Capped(s + [x], cap)
         == if OutletCount(Capped(s, cap), x.outlet) < cap then Capped(s, cap) + [x] else Capped(s, cap)
  {
    assert (s + [x])[..|s|] == s;
  }

  /** Counting over a prefix never gives more. */
  lemma {:induction false} OutletCountPrefix(s: seq<Article>, k: nat, o: string)
    requires k <= |s|
    ensures OutletCount(s[..k], o) <= OutletCount(s, o)
    decreases |s|
  {
    if k < |s| {
      assert s[..k] == s[..|s| - 1][..k];
      OutletCountPrefix(s[..|s| - 1], k, o);
    } else {
      assert s[..k] == s;
    }
  }

  /** The scan keeps an order-preserving subsequence of its input. */
  lemma {:induction false} CappedIsSubsequence(s: seq<Article>, cap: int)
    ensures IsSubsequence(Capped(s, cap), s)
    decreases |s|
  {
    if |s| == 0 {
      EmbedsIdentity(s);
    } else {
      var s' := s[..|s| - 1];
      var row := s[|s| - 1];
      assert s == s' + [row];
      CappedIsSubsequence(s', cap);
      if OutletCount(Capped(s', cap), row.outlet) < cap {
        SubsequenceAppendBoth(Capped(s', cap), s', row);
      } else {
        SubsequenceAppendRight(Capped(s', cap), s', row);
      }
    }
  }

  /** No outlet is kept more than `cap` times. */
  lemma {:induction false} CappedRespectsCap(s: seq<Article>, cap: int, o: string)
    requires cap >= 0
    ensures OutletCount(Capped(s, cap), o) <= cap
    decreases |s|
  {
    if |s| > 0 {
      var s' := s[..|s| - 1];
      var row := s[|s| - 1];
      CappedRespectsCap(s', cap, o);
      OutletCountAppend(Capped(s', cap), row);
    }
  }

  /** With a cap of zero or less nothing is kept. */
  lemma {:induction false} CappedNonPositive(s: seq<Article>, cap: int)
    requires cap <= 0
    ensures Capped(s, cap) == []
    decreases |s|
  {
    if |s| > 0 {
      CappedNonPositive(s[..|s| - 1], cap);
    }
  }

  /** A sequence that already respects the cap passes through unchanged. */
  lemma {:induction false} CappedFixpoint(t: seq<Article>, cap: int)
    requires forall o :: OutletCount(t, o) <= cap
    ensures Capped(t, cap) == t
    decreases |t|
  {
    if |t| > 0 {
      var t' := t[..|t| - 1];
      var row := t[|t| - 1];
      assert t == t' + [row];
      OutletCountAppend(t', row);
      forall o ensures OutletCount(t', o) <= cap {
        OutletCountPrefix(t, |t| - 1, o);
      }
      CappedFixpoint(t', cap);
      assert OutletCount(t', row.outlet) + 1 == OutletCount(t, row.outlet);
    }
  }

  /** A dropped row is never reconsidered, so re-ranking twice is re-ranking once. */
  lemma CappedIdempotent(s: seq<Article>, cap: int)
    ensures Capped(Capped(s, cap), cap) == Capped(s, cap)
  {
    if cap < 0 {
      CappedNonPositive(s, cap);
    } else {
      forall o ensures OutletCount(Capped(s, cap), o) <= cap {
        CappedRespectsCap(s, cap, o);
      }
      CappedFixpoint(Capped(s, cap), cap);
    }
  }

  /** The greedy rule: the row at position `i` is dropped exactly when `cap`
      earlier rows of its outlet have already been kept. */
  lemma CappedDropRule(s: seq<Article>, cap: int, i: nat)
    requires cap >= 0 && i < |s|
    ensures var before := Capped(s[..i], cap);
            && (OutletCount(before, s[i].outlet) < cap ==> Capped(s[..i + 1], cap) == before + [s[i]])
            && (OutletCount(before, s[i].outlet) >= cap ==>
                  OutletCount(before, s[i].outlet) == cap && Capped(s[..i + 1], cap) == before)
  {
    assert s[..i + 1][..i] == s[..i];
    CappedRespectsCap(s[..i], cap, s[i].outlet);
  }

  /** Ten (or any number of) rows of one outlet: only the first `cap` survive. */
  lemma {:induction false} CappedSingleOutlet(s: seq<Article>, cap: int, o: string)
    requires cap >= 0
    requires forall i :: 0 <= i < |s| ==> s[i].outlet == o
    ensures Capped(s, cap) == s[..Min(cap, |s|)]
    decreases |s|
  {
    if |s| > 0 {
      var s' := s[..|s| - 1];
      var row := s[|s| - 1];
      assert s == s' + [row];
      CappedSingleOutlet(s', cap, o);
      var m := Min(cap, |s'|);
      var kept := s'[..m];
      assert Capped(s', cap) == kept;
      assert row.outlet == o;
      SingleOutletCount(kept, o);
      CappedAppend(s', row, cap);
      if m < cap {
        assert kept == s';
        assert Capped(s' + [row], cap) == s' + [row];
      } else {
        assert Capped(s' + [row], cap) == kept;
        assert s[..Min(cap, |s|)] == kept;
      }
    }
  }

  lemma {:induction false} SingleOutletCount(s: seq<Article>, o: string)
    requires forall i :: 0 <= i < |s| ==> s[i].outlet == o
    ensures OutletCount(s, o) == |s|
    decreases |s|
  {
    if |s| > 0 {
      SingleOutletCount(s[..|s| - 1], o);
    }
  }

  /** What the cap guarantees of its result: an order-preserving selection of
      the input with no outlet above the cap (none at all for a negative cap). */
  lemma CappedProperties(s: seq<Article>, cap: int)
    ensures IsSubsequence(Capped(s, cap), s)
    ensures forall o :: OutletCount(Capped(s, cap), o) <= Max(cap, 0)
  {
    CappedIsSubsequence(s, cap);
    forall o ensures OutletCount(Capped(s, cap), o) <= Max(cap, 0) {
      if cap >= 0 {
        CappedRespectsCap(s, cap, o);
      } else {
        CappedNonPositive(s, cap);
      }
    }
  }

  /** Bumping the counter of a kept row's outlet keeps the counter in step
      with the kept rows. */
  lemma CounterBump(counts: map<string, nat>, kept: seq<Article>, row: Article)
    requires forall o :: CounterGet(counts, o) == OutletCount(kept, o)
    ensures forall o :: CounterGet(counts[row.outlet := CounterGet(counts, row.outlet) + 1], o)
                     == OutletCount(kept + [row], o)
  {
    OutletCountAppend(kept, row);
  }

  /** `fairness_re_ranking` (lines 6-15): one pass over the rows with a
      per-outlet counter. */
  method FairnessReRanking(recommendations: seq<Article>, maxPerOutlet: int) returns (balanced: seq<Article>)
    ensures balanced == Capped(recommendations, maxPerOutlet)
    ensures IsSubsequence(balanced, recommendations)
    ensures forall o :: OutletCount(balanced, o) <= Max(maxPerOutlet, 0)
  {
    var outletCounts: map<string, nat> := map[];
    balanced := [];
    for i := 0 to |recommendations|
      invariant balanced == Capped(recommendations[..i], maxPerOutlet)
      invariant forall o :: CounterGet(outletCounts, o) == OutletCount(balanced, o)
    {
      var row := recommendations[i];
      assert recommendations[..i + 1] == recommendations[..i] + [row];
      CappedAppend(recommendations[..i], row, maxPerOutlet);
      if CounterGet(outletCounts, row.outlet) < maxPerOutlet {
        CounterBump(outletCounts, balanced, row);
        balanced := balanced + [row];
        outletCounts := outletCounts[row.outlet := CounterGet(outletCounts, row.outlet) + 1];
      }
    }
    assert recommendations[..|recommendations|] == recommendations;
    CappedProperties(recommendations, maxPerOutlet);
  }
}
