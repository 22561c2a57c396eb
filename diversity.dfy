/** The political-diversity quota enforcer of
    backend/models/recommendation_function.py (`enforce_political_diversity`):
    reserve slots per leaning, fill them leaning by leaning in a fixed order,
    then top up from what is left. */
module Diversity {
  import opened Sequences
  import opened Articles
  import opened Wrappers

  /** One entry of the quota dictionary: a leaning and the number of rows
      `head(min_count)` asks for (negative values are possible and follow
      `head`'s slicing rule). */
  datatype Quota = Quota(leaning: Leaning, slots: int)

  /** The two lists the selection loop keeps: `selected_articles` and
      `remaining_articles`. */
  datatype Pools = Pools(selected: seq<Article>, remaining: seq<Article>)

  /** The secondary leanings of lines 20-25, in the order they enter the quota
      dictionary. */
  function Secondaries(primary: Leaning): (r: (Leaning, Leaning))
    ensures r.0 != primary && r.1 != primary && r.0 != r.1
    ensures primary == LEFT ==> r == (CENTER, RIGHT)
    ensures primary == RIGHT ==> r == (CENTER, LEFT)
    ensures primary == CENTER ==> r == (LEFT, RIGHT)
  {
    match primary
    case LEFT => (CENTER, RIGHT)
    case RIGHT => (CENTER, LEFT)
    case CENTER => (LEFT, RIGHT)
  }

  /** The quota dictionary of lines 27-32 in its insertion (and so iteration)
      order. Python's `//` by 2 is floor division, which Dafny's `/` by a
      positive divisor also is. */
  function Quotas(primary: Leaning, primaryWeight: int, topN: int): (q: seq<Quota>)
    ensures |q| == 3
    ensures q[0] == Quota(primary, primaryWeight)
    ensures q[0].leaning != q[1].leaning && q[0].leaning != q[2].leaning && q[1].leaning != q[2].leaning
    ensures q[1].slots == q[2].slots + 1
    ensures q[0].slots + q[1].slots + q[2].slots
         == topN + (if (topN - primaryWeight) % 2 == 0 then 1 else 0)
  {
    var (first, second) := Secondaries(primary);
    var half := (topN - primaryWeight) / 2;
    [Quota(primary, primaryWeight), Quota(first, half + 1), Quota(second, half)]
  }

  function LeaningIs(l: Leaning): Article -> bool
  {
    (a: Article) => a.leaning == l
  }

  function IdOutside(ids: set<int>): Article -> bool
  {
    (a: Article) => a.id !in ids
  }

  /** `rows[rows["political_leaning"] == l]`. */
  function OfLeaning(rows: seq<Article>, l: Leaning): seq<Article>
  {
    Filter(rows, LeaningIs(l))
  }

  /** `rows[~rows["id"].isin(ids)]`. */
  function WithoutIds(rows: seq<Article>, ids: set<int>): seq<Article>
  {
    Filter(rows, IdOutside(ids))
  }

  /** One iteration of the loop of lines 38-41. */
  function TakeQuota(p: Pools, q: Quota): Pools
  {
    var selected := p.selected + PyHead(OfLeaning(p.remaining, q.leaning), q.slots);
    Pools(selected, WithoutIds(p.remaining, Ids(selected)))
  }

  /** The two lists after the loop has processed the quotas `qs`, starting
      from no selection and the whole input. */
  function ApplyQuotas(recs: seq<Article>, qs: seq<Quota>): Pools
  {
    if |qs| == 0 then Pools([], recs)
    else TakeQuota(ApplyQuotas(recs, qs[..|qs| - 1]), qs[|qs| - 1])
  }

  /** What quota `q` takes from the whole input: its first `q.slots` rows of
      leaning `q.leaning`. */
  function Pick(recs: seq<Article>, q: Quota): seq<Article>
  {
    PyHead(OfLeaning(recs, q.leaning), q.slots)
  }

  /** The picks of the quotas `qs`, one after the other. */
  function QuotaPicks(recs: seq<Article>, qs: seq<Quota>): seq<Article>
  {
    if |qs| == 0 then []
    else QuotaPicks(recs, qs[..|qs| - 1]) + Pick(recs, qs[|qs| - 1])
  }

  function LeaningsOf(qs: seq<Quota>): set<Leaning>
  {
    set q | q in qs :: q.leaning
  }

  /** The whole of `enforce_political_diversity`: an empty input fails at
      `iloc[0]` (line 18); otherwise the quota selection is followed by the
      top-up of line 44, `remaining[:top_n - len(selected)]`. */
  function Diversify(recs: seq<Article>, primaryWeight: int, topN: int): Result<seq<Article>, PipelineError>
  {
    if |recs| == 0 then Failure(EmptyCandidates)
    else
      var p := ApplyQuotas(recs, Quotas(recs[0].leaning, primaryWeight, topN));
      Success(p.selected + PyHead(p.remaining, topN - |p.selected|))
  }

  /** `enforce_political_diversity` (lines 17-46). */
  method EnforcePoliticalDiversity(recommendations: seq<Article>, primaryWeight: int, topN: int)
    returns (r: Result<seq<Article>, PipelineError>)
    ensures r == Diversify(recommendations, primaryWeight, topN)
  {
    if |recommendations| == 0 {
      return Failure(EmptyCandidates);
    }
    var quota := Quotas(recommendations[0].leaning, primaryWeight, topN);
    var selected: seq<Article> := [];
    var remaining := recommendations;
    for k := 0 to |quota|
      invariant Pools(selected, remaining) == ApplyQuotas(recommendations, quota[..k])
    {
      assert quota[..k + 1][..k] == quota[..k];
      var candidates := PyHead(OfLeaning(remaining, quota[k].leaning), quota[k].slots);
      selected := selected + candidates;
      remaining := WithoutIds(remaining, Ids(selected));
    }
    assert quota[..|quota|] == quota;
    r := Success(selected + PyHead(remaining, topN - |selected|));
  }

  // ---------------------------------------------------------------------
  // Facts about identifiers and filters

  lemma IdsConcat(a: seq<Article>, b: seq<Article>)
    ensures Ids(a + b) == Ids(a) + Ids(b)
  {
    forall k | k in Ids(a + b) ensures k in Ids(a) + Ids(b) {
      var x :| x in a + b && x.id == k;
    }
    forall k | k in Ids(a) + Ids(b) ensures k in Ids(a + b) {
      if k in Ids(a) {
        var x :| x in a && x.id == k;
        assert x in a + b;
      } else {
        var x :| x in b && x.id == k;
        assert x in a + b;
      }
    }
  }

  /** Removing two id sets one after the other removes their union. */
  lemma {:induction false} WithoutIdsTwice(s: seq<Article>, a: set<int>, b: set<int>)
    ensures WithoutIds(WithoutIds(s, a), b) == WithoutIds(s, a + b)
    decreases |s|
  {
    if |s| > 0 {
      var s' := s[..|s| - 1];
      var x := s[|s| - 1];
      assert s == s' + [x];
      WithoutIdsTwice(s', a, b);
      FilterAppend(s', x, IdOutside(a));
      FilterAppend(s', x, IdOutside(a + b));
      FilterAppend(WithoutIds(s', a), x, IdOutside(b));
      assert IdOutside(a)(x) == (x.id !in a);
      assert IdOutside(b)(x) == (x.id !in b);
      assert IdOutside(a + b)(x) == (x.id !in a + b);
      assert WithoutIds(s, a) == WithoutIds(s', a) + (if x.id !in a then [x] else []);
      assert WithoutIds(s, a + b) == WithoutIds(s', a + b) + (if x.id !in a + b then [x] else []);
      if x.id in a {
        assert WithoutIds(s, a) == WithoutIds(s', a);
      } else {
        assert WithoutIds(WithoutIds(s, a), b) == WithoutIds(WithoutIds(s', a), b) + (if x.id !in b then [x] else []);
      }
    }
  }

  /** Removing ids that no row of leaning `l` carries leaves that leaning's rows alone. */
  lemma {:induction false} OfLeaningUntouched(s: seq<Article>, ids: set<int>, l: Leaning)
    requires forall x :: x in s && x.leaning == l ==> x.id !in ids
    ensures OfLeaning(WithoutIds(s, ids), l) == OfLeaning(s, l)
    decreases |s|
  {
    if |s| > 0 {
      var s' := s[..|s| - 1];
      var x := s[|s| - 1];
      assert s == s' + [x];
      OfLeaningUntouched(s', ids, l);
      FilterAppend(s', x, IdOutside(ids));
      FilterAppend(s', x, LeaningIs(l));
      FilterAppend(WithoutIds(s', ids), x, LeaningIs(l));
      assert IdOutside(ids)(x) == (x.id !in ids);
      assert LeaningIs(l)(x) == (x.leaning == l);
      assert OfLeaning(s, l) == OfLeaning(s', l) + (if x.leaning == l then [x] else []);
      if x.id in ids {
        assert x.leaning != l;
        assert WithoutIds(s, ids) == WithoutIds(s', ids);
      } else {
        assert WithoutIds(s, ids) == WithoutIds(s', ids) + [x];
      }
    }
  }

  lemma UniqueIdsSubsequence(a: seq<Article>, b: seq<Article>)
    requires IsSubsequence(a, b) && UniqueIds(b)
    ensures UniqueIds(a)
  {
    var idx :| Embeds(a, b, idx);
    forall i, j | 0 <= i < |a| && 0 <= j < |a| && a[i].id == a[j].id ensures i == j {
      assert b[idx[i]].id == b[idx[j]].id;
    }
  }

  lemma UniqueIdsConcat(a: seq<Article>, b: seq<Article>)
    requires UniqueIds(a) && UniqueIds(b) && Ids(a) !! Ids(b)
    ensures UniqueIds(a + b)
  {
    var c := a + b;
    forall i, j | 0 <= i < |a| <= j < |c| ensures c[i].id != c[j].id {
      assert c[i] == a[i] && c[j] == b[j - |a|];
      assert a[i].id in Ids(a) && b[j - |a|].id in Ids(b);
    }
    forall i, j | |a| <= i < |c| && |a| <= j < |c| && c[i].id == c[j].id ensures i == j {
      assert b[i - |a|].id == b[j - |a|].id;
    }
  }

  lemma UniqueIdsSame(s: seq<Article>, x: Article, y: Article)
    requires UniqueIds(s) && x in s && y in s && x.id == y.id
    ensures x == y
  {
    var i :| 0 <= i < |s| && s[i] == x;
    var j :| 0 <= j < |s| && s[j] == y;
  }

  /** With distinct ids, a sequence has as many ids as rows. */
  lemma {:induction false} UniqueIdsCard(s: seq<Article>)
    requires UniqueIds(s)
    ensures |Ids(s)| == |s|
    decreases |s|
  {
    if |s| > 0 {
      var s' := s[..|s| - 1];
      var x := s[|s| - 1];
      assert s == s' + [x];
      UniqueIdsSubsequenceOfPrefix(s, |s| - 1);
      UniqueIdsCard(s');
      IdsConcat(s', [x]);
      assert Ids([x]) == {x.id};
    }
  }

  lemma UniqueIdsSubsequenceOfPrefix(s: seq<Article>, k: nat)
    requires k <= |s| && UniqueIds(s)
    ensures UniqueIds(s[..k])
  {
    PrefixIsSubsequence(s, k);
    UniqueIdsSubsequence(s[..k], s);
  }

  /** With distinct ids, the last row's id is not among the earlier ones. */
  lemma LastIdFresh(s: seq<Article>)
    requires UniqueIds(s) && |s| > 0
    ensures s[|s| - 1].id !in Ids(s[..|s| - 1])
  {
  }

  /** With distinct ids, removing an id set removes one row per id it shares with the rows. */
  lemma {:induction false} WithoutIdsLength(s: seq<Article>, ids: set<int>)
    requires UniqueIds(s)
    ensures |WithoutIds(s, ids)| == |s| - |ids * Ids(s)|
    decreases |s|
  {
    if |s| == 0 {
      assert ids * Ids(s) == {};
    } else {
      var s' := s[..|s| - 1];
      var x := s[|s| - 1];
      assert s == s' + [x];
      UniqueIdsSubsequenceOfPrefix(s, |s| - 1);
      LastIdFresh(s);
      WithoutIdsLength(s', ids);
      FilterAppend(s', x, IdOutside(ids));
      assert IdOutside(ids)(x) == (x.id !in ids);
      IdsConcat(s', [x]);
      assert Ids([x]) == {x.id};
      IntersectWithNew(ids, Ids(s'), x.id);
    }
  }

  /** Adding an id not yet present adds one to the intersection exactly when the id is in `ids`. */
  lemma IntersectWithNew(ids: set<int>, a: set<int>, y: int)
    requires y !in a
    ensures |ids * (a + {y})| == |ids * a| + (if y in ids then 1 else 0)
  {
    if y in ids {
      assert ids * (a + {y}) == (ids * a) + {y};
    } else {
      assert ids * (a + {y}) == ids * a;
    }
  }

  // ---------------------------------------------------------------------
  // The selection loop

  /** What the loop keeps true: `remaining` is the input minus the selected
      ids, every selected row comes from the input, and distinct input ids
      stay distinct in the selection. */
  ghost predicate PoolsInvariant(recs: seq<Article>, p: Pools)
  {
    && p.remaining == WithoutIds(recs, Ids(p.selected))
    && (forall x :: x in p.selected ==> x in recs)
    && (UniqueIds(recs) ==> UniqueIds(p.selected))
  }

  /** A quota's pick is an order-preserving subsequence of the pool it is taken from. */
  lemma PickFromPool(rows: seq<Article>, q: Quota)
    ensures IsSubsequence(PyHead(OfLeaning(rows, q.leaning), q.slots), rows)
    ensures forall x :: x in PyHead(OfLeaning(rows, q.leaning), q.slots) ==> x in rows
  {
    var pool := OfLeaning(rows, q.leaning);
    var picked := PyHead(pool, q.slots);
    PrefixIsSubsequence(pool, |picked|);
    FilterIsSubsequence(rows, LeaningIs(q.leaning));
    SubsequenceTransitive(picked, pool, rows);
    SubsequenceMembers(picked, rows);
  }

  lemma TakeQuotaRemaining(recs: seq<Article>, p: Pools, q: Quota)
    requires p.remaining == WithoutIds(recs, Ids(p.selected))
    ensures TakeQuota(p, q).remaining == WithoutIds(recs, Ids(TakeQuota(p, q).selected))
  {
    var selected := TakeQuota(p, q).selected;
    IdsConcat(p.selected, PyHead(OfLeaning(p.remaining, q.leaning), q.slots));
    WithoutIdsTwice(recs, Ids(p.selected), Ids(selected));
    assert Ids(p.selected) + Ids(selected) == Ids(selected);
  }

  lemma TakeQuotaUnique(recs: seq<Article>, p: Pools, q: Quota)
    requires PoolsInvariant(recs, p) && UniqueIds(recs)
    ensures UniqueIds(TakeQuota(p, q).selected)
  {
    var picked := PyHead(OfLeaning(p.remaining, q.leaning), q.slots);
    PickFromPool(p.remaining, q);
    FilterIsSubsequence(recs, IdOutside(Ids(p.selected)));
    SubsequenceTransitive(picked, p.remaining, recs);
    UniqueIdsSubsequence(picked, recs);
    FilterMembers(recs, IdOutside(Ids(p.selected)));
    forall k | k in Ids(picked) ensures k !in Ids(p.selected) {
      var x :| x in picked && x.id == k;
      assert x in p.remaining;
      assert IdOutside(Ids(p.selected))(x);
    }
    UniqueIdsConcat(p.selected, picked);
  }

  /** One loop iteration keeps the invariant. */
  lemma TakeQuotaInvariant(recs: seq<Article>, p: Pools, q: Quota)
    requires PoolsInvariant(recs, p)
    ensures PoolsInvariant(recs, TakeQuota(p, q))
  {
    TakeQuotaRemaining(recs, p, q);
    PickFromPool(p.remaining, q);
    FilterMembers(recs, IdOutside(Ids(p.selected)));
    if UniqueIds(recs) {
      TakeQuotaUnique(recs, p, q);
    }
  }

  lemma {:induction false} ApplyQuotasInvariant(recs: seq<Article>, qs: seq<Quota>)
    ensures PoolsInvariant(recs, ApplyQuotas(recs, qs))
    decreases |qs|
  {
    if |qs| == 0 {
      assert Ids([]) == {};
      FilterAll(recs, IdOutside({}));
    } else {
      ApplyQuotasInvariant(recs, qs[..|qs| - 1]);
      TakeQuotaInvariant(recs, ApplyQuotas(recs, qs[..|qs| - 1]), qs[|qs| - 1]);
    }
  }

  /** A quota whose leaning no earlier pick has takes its rows from the whole
      input: the earlier picks removed only rows of other leanings. */
  lemma TakeQuotaFresh(recs: seq<Article>, p: Pools, q: Quota, earlier: set<Leaning>)
    requires PoolsInvariant(recs, p) && UniqueIds(recs)
    requires forall x :: x in p.selected ==> x.leaning in earlier
    requires q.leaning !in earlier
    ensures TakeQuota(p, q).selected == p.selected + Pick(recs, q)
  {
    OfLeaningUntouched(recs, Ids(p.selected), q.leaning);
  }

  lemma PickLeaning(recs: seq<Article>, q: Quota)
    ensures forall x :: x in Pick(recs, q) ==> x.leaning == q.leaning
  {
    FilterMembers(recs, LeaningIs(q.leaning));
    forall x | x in Pick(recs, q) ensures x.leaning == q.leaning {
      assert x in OfLeaning(recs, q.leaning);
      assert LeaningIs(q.leaning)(x);
    }
  }

  /** With distinct ids and distinct quota leanings, each quota takes its first
      `slots` rows of its leaning from the whole input: the earlier quotas
      never consume rows of a later quota's leaning. */
  lemma {:induction false} ApplyQuotasPicks(recs: seq<Article>, qs: seq<Quota>)
    requires UniqueIds(recs)
    requires forall i, j :: 0 <= i < j < |qs| ==> qs[i].leaning != qs[j].leaning
    ensures ApplyQuotas(recs, qs).selected == QuotaPicks(recs, qs)
    ensures forall x :: x in QuotaPicks(recs, qs) ==> x.leaning in LeaningsOf(qs)
    decreases |qs|
  {
    if |qs| > 0 {
      var qs' := qs[..|qs| - 1];
      var q := qs[|qs| - 1];
      ApplyQuotasPicks(recs, qs');
      ApplyQuotasInvariant(recs, qs');
      LeaningsOfLast(qs);
      TakeQuotaFresh(recs, ApplyQuotas(recs, qs'), q, LeaningsOf(qs'));
      PickLeaning(recs, q);
    }
  }

  lemma LeaningsOfLast(qs: seq<Quota>)
    requires |qs| > 0
    requires forall i, j :: 0 <= i < j < |qs| ==> qs[i].leaning != qs[j].leaning
    ensures LeaningsOf(qs) == LeaningsOf(qs[..|qs| - 1]) + {qs[|qs| - 1].leaning}
    ensures qs[|qs| - 1].leaning !in LeaningsOf(qs[..|qs| - 1])
  {
    var qs' := qs[..|qs| - 1];
    assert qs == qs' + [qs[|qs| - 1]];
  }

  lemma QuotaPicksThree(recs: seq<Article>, q: seq<Quota>)
    requires |q| == 3
    ensures QuotaPicks(recs, q) == Pick(recs, q[0]) + Pick(recs, q[1]) + Pick(recs, q[2])
  {
    assert q[..3] == q;
    assert q[..2][..1] == q[..1];
    assert q[..1][..0] == q[..0];
    assert QuotaPicks(recs, q[..1]) == Pick(recs, q[0]);
    assert QuotaPicks(recs, q[..2]) == Pick(recs, q[0]) + Pick(recs, q[1]);
  }

  /** The output is the three quota picks, each taken from the whole input,
      followed by the rows not picked, in input order, cut to
      `top_n - len(selected)` with Python's slicing rule. */
  lemma DiversifyStructure(recs: seq<Article>, primaryWeight: int, topN: int)
    requires |recs| > 0 && UniqueIds(recs)
    ensures var q := Quotas(recs[0].leaning, primaryWeight, topN);
            var picks := Pick(recs, q[0]) + Pick(recs, q[1]) + Pick(recs, q[2]);
            && UniqueIds(picks)
            && (forall x :: x in picks ==> x in recs)
            && Diversify(recs, primaryWeight, topN)
               == Success(picks + PyHead(WithoutIds(recs, Ids(picks)), topN - |picks|))
  {
    var q := Quotas(recs[0].leaning, primaryWeight, topN);
    ApplyQuotasPicks(recs, q);
    ApplyQuotasInvariant(recs, q);
    QuotaPicksThree(recs, q);
  }

  /** Removing the ids of distinct input rows removes exactly those rows. */
  lemma RestLength(recs: seq<Article>, picks: seq<Article>)
    requires UniqueIds(recs) && UniqueIds(picks)
    requires forall x :: x in picks ==> x in recs
    ensures |WithoutIds(recs, Ids(picks))| == |recs| - |picks|
  {
    WithoutIdsLength(recs, Ids(picks));
    UniqueIdsCard(picks);
    assert Ids(picks) * Ids(recs) == Ids(picks);
  }

  /** When `top_n - primary_weight` is odd and `0 <= primary_weight <= top_n`
      (the defaults 2 and 5 are such), the quotas add up to `top_n` and the
      output has `min(top_n, len(input))` rows. */
  lemma DiversifyLength(recs: seq<Article>, primaryWeight: int, topN: int)
    requires |recs| > 0 && UniqueIds(recs)
    requires 0 <= primaryWeight <= topN && (topN - primaryWeight) % 2 == 1
    ensures Diversify(recs, primaryWeight, topN).Success?
    ensures |Diversify(recs, primaryWeight, topN).value| == Min(topN, |recs|)
  {
    var q := Quotas(recs[0].leaning, primaryWeight, topN);
    var picks := Pick(recs, q[0]) + Pick(recs, q[1]) + Pick(recs, q[2]);
    DiversifyStructure(recs, primaryWeight, topN);
    RestLength(recs, picks);
  }

  /** When `top_n - primary_weight` is even (and not negative) the quotas add
      up to `top_n + 1`. If every quota can be filled, `top_n -
      len(selected)` is -1 and Python's slice then keeps all remaining rows
      but the last: the output has `max(len(input) - 1, top_n + 1)` rows,
      more than `top_n`. */
  lemma DiversifyEvenOverflow(recs: seq<Article>, primaryWeight: int, topN: int)
    requires |recs| > 0 && UniqueIds(recs)
    requires 0 <= primaryWeight <= topN && (topN - primaryWeight) % 2 == 0
    requires forall k :: 0 <= k < 3 ==>
      |OfLeaning(recs, Quotas(recs[0].leaning, primaryWeight, topN)[k].leaning)|
      >= Quotas(recs[0].leaning, primaryWeight, topN)[k].slots
    ensures |Diversify(recs, primaryWeight, topN).value| == Max(|recs| - 1, topN + 1)
  {
    var q := Quotas(recs[0].leaning, primaryWeight, topN);
    var picks := Pick(recs, q[0]) + Pick(recs, q[1]) + Pick(recs, q[2]);
    DiversifyStructure(recs, primaryWeight, topN);
    assert |picks| == topN + 1;
    RestLength(recs, picks);
  }

  /** A block of rows all of leaning `l` inside a sequence is counted by
      that leaning's filter. */
  lemma LeaningBlock(before: seq<Article>, mine: seq<Article>, after: seq<Article>, l: Leaning)
    requires forall x :: x in mine ==> x.leaning == l
    ensures |OfLeaning(before + mine + after, l)| >= |mine|
  {
    FilterAll(mine, LeaningIs(l));
    FilterConcat(before + mine, after, LeaningIs(l));
    FilterConcat(before, mine, LeaningIs(l));
  }

  lemma BlockCount(a: seq<Article>, b: seq<Article>, c: seq<Article>, tail: seq<Article>, k: nat, l: Leaning)
    requires k < 3
    requires forall x :: x in [a, b, c][k] ==> x.leaning == l
    ensures |OfLeaning(a + b + c + tail, l)| >= |[a, b, c][k]|
  {
    if k == 0 {
      assert a + b + c + tail == [] + a + (b + c + tail);
      LeaningBlock([], a, b + c + tail, l);
    } else if k == 1 {
      assert a + b + c + tail == a + b + (c + tail);
      LeaningBlock(a, b, c + tail, l);
    } else {
      LeaningBlock(a + b, c, tail, l);
    }
  }

  /** Quota satisfaction: the leaning of quota `k` appears at least
      `min(slots, available)` times in the output, where `available` is the
      number of input rows of that leaning. */
  lemma DiversifyMeetsQuota(recs: seq<Article>, primaryWeight: int, topN: int, k: nat)
    requires |recs| > 0 && UniqueIds(recs) && k < 3
    requires Quotas(recs[0].leaning, primaryWeight, topN)[k].slots >= 0
    ensures var q := Quotas(recs[0].leaning, primaryWeight, topN)[k];
            |OfLeaning(Diversify(recs, primaryWeight, topN).value, q.leaning)|
            >= Min(q.slots, |OfLeaning(recs, q.leaning)|)
  {
    var qs := Quotas(recs[0].leaning, primaryWeight, topN);
    var a, b, c := Pick(recs, qs[0]), Pick(recs, qs[1]), Pick(recs, qs[2]);
    DiversifyStructure(recs, primaryWeight, topN);
    var tail := PyHead(WithoutIds(recs, Ids(a + b + c)), topN - |a + b + c|);
    assert Diversify(recs, primaryWeight, topN).value == a + b + c + tail;
    assert [a, b, c][k] == Pick(recs, qs[k]);
    PickLeaning(recs, qs[k]);
    BlockCount(a, b, c, tail, k, qs[k].leaning);
  }

  /** Every output row is an input row, and distinct input ids stay distinct. */
  lemma DiversifyRows(recs: seq<Article>, primaryWeight: int, topN: int)
    requires |recs| > 0
    ensures forall x :: x in Diversify(recs, primaryWeight, topN).value ==> x in recs
    ensures UniqueIds(recs) ==> UniqueIds(Diversify(recs, primaryWeight, topN).value)
  {
    var p := ApplyQuotas(recs, Quotas(recs[0].leaning, primaryWeight, topN));
    ApplyQuotasInvariant(recs, Quotas(recs[0].leaning, primaryWeight, topN));
    var fill := PyHead(p.remaining, topN - |p.selected|);
    FilterIsSubsequence(recs, IdOutside(Ids(p.selected)));
    PrefixIsSubsequence(p.remaining, |fill|);
    SubsequenceTransitive(fill, p.remaining, recs);
    SubsequenceMembers(fill, recs);
    if UniqueIds(recs) {
      UniqueIdsSubsequence(fill, recs);
      FilterMembers(recs, IdOutside(Ids(p.selected)));
      forall k | k in Ids(fill) ensures k !in Ids(p.selected) {
        var x :| x in fill && x.id == k;
        assert x in p.remaining;
        assert IdOutside(Ids(p.selected))(x);
      }
      UniqueIdsConcat(p.selected, fill);
    }
  }

  /** The scenario of a LEFT-leaning nearest neighbour with the defaults
      (primary weight 2, five results) and at least two candidates of every
      leaning: the output is exactly two LEFT, then two CENTER, then one RIGHT. */
  lemma DiversifyDefaultsLeft(recs: seq<Article>)
    requires |recs| > 0 && UniqueIds(recs) && recs[0].leaning == LEFT
    requires |OfLeaning(recs, LEFT)| >= 2 && |OfLeaning(recs, CENTER)| >= 2 && |OfLeaning(recs, RIGHT)| >= 2
    ensures var out := Diversify(recs, 2, 5).value;
            && |out| == 5
            && out[0].leaning == LEFT && out[1].leaning == LEFT
            && out[2].leaning == CENTER && out[3].leaning == CENTER
            && out[4].leaning == RIGHT
  {
    var qs := Quotas(LEFT, 2, 5);
    assert qs == [Quota(LEFT, 2), Quota(CENTER, 2), Quota(RIGHT, 1)];
    DiversifyStructure(recs, 2, 5);
    var a, b, c := Pick(recs, qs[0]), Pick(recs, qs[1]), Pick(recs, qs[2]);
    assert |a| == 2 && |b| == 2 && |c| == 1;
    PickLeaning(recs, qs[0]);
    PickLeaning(recs, qs[1]);
    PickLeaning(recs, qs[2]);
    assert a[0] in a && a[1] in a && b[0] in b && b[1] in b && c[0] in c;
    RestLength(recs, a + b + c);
    var out := Diversify(recs, 2, 5).value;
    assert out == a + b + c;
  }

  /** A non-empty input and a positive `top_n` give a non-empty output: if
      no quota picks anything, the top-up takes from the whole input. */
  lemma DiversifyNonEmpty(recs: seq<Article>, primaryWeight: int, topN: int)
    requires |recs| > 0 && topN >= 1
    ensures |Diversify(recs, primaryWeight, topN).value| >= 1
  {
    var p := ApplyQuotas(recs, Quotas(recs[0].leaning, primaryWeight, topN));
    ApplyQuotasInvariant(recs, Quotas(recs[0].leaning, primaryWeight, topN));
    if |p.selected| == 0 {
      assert Ids(p.selected) == {};
      FilterAll(recs, IdOutside({}));
    }
  }
}
