/** The logic of the administrator dashboard, frontend/src/pages/AdminProfile.jsx:
    which interactions count as valid and which as not relevant, the
    new/returning status of the account, whether valid interactions span two
    days, the two-row "recent" tables, and the three lists the page keeps in
    state and shrinks after a successful DELETE. The page's date header is the
    same code as the profile page's and is modelled by `Profile.CurrentDate`. */
module AdminProfile {
  import opened Wrappers
  import opened Sequences
  import opened JsText
  import opened Records
  import Profile

  /** The dashboard's `getCurrentDate` (lines 143-172) computes the day
      suffix with the same conditions as the profile page: 11, 12 and 13 take
      "th", while 1, 21 and 31 take "st", 22 "nd" and 23 "rd". */
  lemma DateSuffixAsOnProfile()
    ensures Profile.DateSuffix(11) == "th" && Profile.DateSuffix(12) == "th" && Profile.DateSuffix(13) == "th"
    ensures Profile.DateSuffix(1) == "st" && Profile.DateSuffix(21) == "st" && Profile.DateSuffix(31) == "st"
    ensures Profile.DateSuffix(22) == "nd" && Profile.DateSuffix(23) == "rd"
  {
  }

  /** The seconds of reading that make a read valid (line 76). */
  const READ_TIME_THRESHOLD := 120

  /** A row of `GET /interactions`. `readTimeSeconds` and `timestamp` may be
      `null` in the database. */
  datatype Interaction = Interaction(
    id: int,
    userId: int,
    kind: string,
    readTimeSeconds: Option<int>,
    timestamp: Option<string>)

  /** A like, or a read of at least the threshold (lines 331-335). A read
      whose time is `null` is not valid: `null >= 120` is false. */
  predicate IsValid(i: Interaction)
  {
    i.kind == "like"
    || (i.kind == "read" && i.readTimeSeconds.Some? && i.readTimeSeconds.value >= READ_TIME_THRESHOLD)
  }

  /** A dislike, or a read shorter than the threshold (line 1210). JavaScript
      compares `null < 120` as `0 < 120`, so a read with a `null` time is not
      relevant. */
  predicate IsNotRelevant(i: Interaction)
  {
    i.kind == "dislike"
    || (i.kind == "read" && (i.readTimeSeconds.None? || i.readTimeSeconds.value < READ_TIME_THRESHOLD))
  }

  /** No interaction is both valid and not relevant, and every like, dislike
      or read is one of the two, a read with no recorded time included. */
  lemma ValidityPartition(i: Interaction)
    ensures !(IsValid(i) && IsNotRelevant(i))
    ensures i.kind in {"like", "dislike", "read"} ==> IsValid(i) || IsNotRelevant(i)
    ensures i.kind == "read" && i.readTimeSeconds.None? ==> IsNotRelevant(i)
  {
  }

  predicate HasValidInteraction(xs: seq<Interaction>)
  {
    exists k :: 0 <= k < |xs| && IsValid(xs[k])
  }

  /** The status effect (lines 337-341): without a valid interaction the
      status becomes "new"; a "new" status with a valid interaction becomes
      "returning"; otherwise it is left as it is (initially `null`). */
  function NextStatus(hasValid: bool, status: Option<string>): (r: Option<string>)
    ensures !hasValid ==> r == Some("new")
    ensures hasValid ==> r == (if status == Some("new") then Some("returning") else status)
  {
    if !hasValid && status != Some("new") then Some("new")
    else if hasValid && status == Some("new") then Some("returning")
    else status
  }

  /** The effect depends on the status it sets, so it runs again after a
      change; the second run changes nothing, so the page settles after one
      update. */
  lemma NextStatusSettles(hasValid: bool, status: Option<string>)
    ensures NextStatus(hasValid, NextStatus(hasValid, status)) == NextStatus(hasValid, status)
  {
  }

  /** The calendar day of an interaction, `interaction_timestamp?.split(" ")[0]`;
      a missing timestamp gives `undefined`, which, like `""`, the following
      `filter(Boolean)` drops, so both are represented by `""`. */
  function DayOf(i: Interaction): (d: string)
    ensures i.timestamp.Some? ==> |d| <= |i.timestamp.value| && d == i.timestamp.value[..|d|]
    ensures ' ' !in d
  {
    if i.timestamp.None? then "" else BeforeFirst(i.timestamp.value, ' ')
  }

  /** A valid interaction with a day that survives `filter(Boolean)`. */
  predicate CountsForDay(i: Interaction)
  {
    IsValid(i) && DayOf(i) != ""
  }

  /** The days of the valid interactions, in order and with repetitions
      (lines 470-477: filter, map, `filter(Boolean)`). */
  function DayList(xs: seq<Interaction>): seq<string>
    decreases |xs|
  {
    if |xs| == 0 then []
    else
      var last := xs[|xs| - 1];
      DayList(xs[..|xs| - 1]) + (if CountsForDay(last) then [DayOf(last)] else [])
  }

  /** A day is listed exactly when some counted interaction falls on it. */
  lemma {:induction false} DayListMembers(xs: seq<Interaction>)
    ensures forall d :: d in DayList(xs) <==> exists k :: 0 <= k < |xs| && CountsForDay(xs[k]) && DayOf(xs[k]) == d
    decreases |xs|
  {
    if |xs| > 0 {
      var init := xs[..|xs| - 1];
      DayListMembers(init);
      assert forall k :: 0 <= k < |init| ==> init[k] == xs[k];
    }
  }

  /** `hasTwoDays` (lines 462-482): false for no interactions, otherwise
      whether the set of days has at least two elements. */
  function HasTwoDays(xs: seq<Interaction>): bool
  {
    if |xs| == 0 then false
    else |DaySet(xs)| >= 2
  }

  /** A set has two elements exactly when it holds two different values. */
  lemma TwoElements<T>(s: set<T>)
    ensures |s| >= 2 <==> exists a, b :: a in s && b in s && a != b
  {
    if exists a, b :: a in s && b in s && a != b {
      var a, b :| a in s && b in s && a != b;
      var pair := {a, b};
      assert s == pair + (s - pair);
    }
    if |s| >= 2 {
      var a :| a in s;
      var rest := s - {a};
      assert |rest| == |s| - 1;
      var b :| b in rest;
      assert a in s && b in s && a != b;
    }
  }

  /** The distinct days, `new Set(...)`. */
  function DaySet(xs: seq<Interaction>): set<string>
  {
    set d | d in DayList(xs)
  }

  lemma DaySetMembers(xs: seq<Interaction>, d: string)
    ensures d in DaySet(xs) <==> exists k :: 0 <= k < |xs| && CountsForDay(xs[k]) && DayOf(xs[k]) == d
  {
    DayListMembers(xs);
  }

  /** Two counted interactions on different days. */
  predicate TwoDaysWitnessed(xs: seq<Interaction>, k: int, l: int)
  {
    0 <= k < |xs| && 0 <= l < |xs| && CountsForDay(xs[k]) && CountsForDay(xs[l]) && DayOf(xs[k]) != DayOf(xs[l])
  }

  /** Valid interactions span two days exactly when two counted interactions
      fall on different days. */
  lemma HasTwoDaysIff(xs: seq<Interaction>)
    ensures HasTwoDays(xs) <==> exists k, l :: TwoDaysWitnessed(xs, k, l)
  {
    TwoElements(DaySet(xs));
    if exists k, l :: TwoDaysWitnessed(xs, k, l) {
      var k, l :| TwoDaysWitnessed(xs, k, l);
      DaySetMembers(xs, DayOf(xs[k]));
      DaySetMembers(xs, DayOf(xs[l]));
    }
    if HasTwoDays(xs) {
      var a, b :| a in DaySet(xs) && b in DaySet(xs) && a != b;
      DaySetMembers(xs, a);
      DaySetMembers(xs, b);
      var k :| 0 <= k < |xs| && CountsForDay(xs[k]) && DayOf(xs[k]) == a;
      var l :| 0 <= l < |xs| && CountsForDay(xs[l]) && DayOf(xs[l]) == b;
      assert TwoDaysWitnessed(xs, k, l);
    }
  }

  /** Two valid interactions on one day do not make two days. */
  lemma SameDayIsOneDay(a: Interaction, b: Interaction)
    requires CountsForDay(a) && DayOf(a) == DayOf(b)
    ensures !HasTwoDays([a, b])
  {
    HasTwoDaysIff([a, b]);
  }

  /** The "Recent Suggested News" table (lines 1087-1089): the first two
      valid interactions. */
  function RecentValid(xs: seq<Interaction>): seq<Interaction>
  {
    var valid := Filter(xs, IsValid);
    valid[..Min(2, |valid|)]
  }

  /** The "Not Relevant News" table (lines 1209-1211): the first two not
      relevant interactions. */
  function RecentNotRelevant(xs: seq<Interaction>): seq<Interaction>
  {
    var notRelevant := Filter(xs, IsNotRelevant);
    notRelevant[..Min(2, |notRelevant|)]
  }

  /** Each table holds at most two rows, all of its kind, taken from the
      interactions in their order, and no interaction appears in both. */
  lemma RecentTables(xs: seq<Interaction>)
    ensures |RecentValid(xs)| == Min(2, Count(xs, IsValid))
    ensures |RecentNotRelevant(xs)| == Min(2, Count(xs, IsNotRelevant))
    ensures forall i :: i in RecentValid(xs) ==> i in xs && IsValid(i)
    ensures forall i :: i in RecentNotRelevant(xs) ==> i in xs && IsNotRelevant(i)
    ensures IsSubsequence(RecentValid(xs), xs) && IsSubsequence(RecentNotRelevant(xs), xs)
    ensures forall i :: i in RecentValid(xs) ==> i !in RecentNotRelevant(xs)
  {
    var valid := Filter(xs, IsValid);
    var notRelevant := Filter(xs, IsNotRelevant);
    FilterMembers(xs, IsValid);
    FilterMembers(xs, IsNotRelevant);
    FilterIsSubsequence(xs, IsValid);
    FilterIsSubsequence(xs, IsNotRelevant);
    PrefixIsSubsequence(valid, Min(2, |valid|));
    PrefixIsSubsequence(notRelevant, Min(2, |notRelevant|));
    SubsequenceTransitive(RecentValid(xs), valid, xs);
    SubsequenceTransitive(RecentNotRelevant(xs), notRelevant, xs);
    SubsequenceMembers(RecentValid(xs), valid);
    SubsequenceMembers(RecentNotRelevant(xs), notRelevant);
    forall i | i in RecentValid(xs) ensures i !in RecentNotRelevant(xs) {
      ValidityPartition(i);
    }
  }

  /** The user list after `DELETE /users/{id}` succeeds (line 268). */
  function WithoutUser(users: seq<User>, id: int): seq<User>
  {
    Filter(users, (u: User) => u.id != id)
  }

  /** The interaction list after `DELETE /interactions/{id}` succeeds (line 354). */
  function WithoutInteraction(xs: seq<Interaction>, id: int): seq<Interaction>
  {
    Filter(xs, (i: Interaction) => i.id != id)
  }

  /** The report list after `DELETE /admin/balance-report/{userId}` succeeds (line 405). */
  function WithoutBalanceReport(reports: seq<BalanceReport>, userId: int): seq<BalanceReport>
  {
    Filter(reports, (r: BalanceReport) => r.userId != userId)
  }

  /** Deleting a user keeps exactly the users with another id, in order, and
      changes nothing when no user has the id. */
  lemma WithoutUserSpec(users: seq<User>, id: int)
    ensures forall u :: u in WithoutUser(users, id) <==> u in users && u.id != id
    ensures IsSubsequence(WithoutUser(users, id), users)
    ensures (forall u :: u in users ==> u.id != id) ==> WithoutUser(users, id) == users
  {
    FilterMembers(users, (u: User) => u.id != id);
    FilterIsSubsequence(users, (u: User) => u.id != id);
    if forall u :: u in users ==> u.id != id {
      FilterAll(users, (u: User) => u.id != id);
    }
  }

  lemma WithoutInteractionSpec(xs: seq<Interaction>, id: int)
    ensures forall i :: i in WithoutInteraction(xs, id) <==> i in xs && i.id != id
    ensures IsSubsequence(WithoutInteraction(xs, id), xs)
    ensures (forall i :: i in xs ==> i.id != id) ==> WithoutInteraction(xs, id) == xs
  {
    FilterMembers(xs, (i: Interaction) => i.id != id);
    FilterIsSubsequence(xs, (i: Interaction) => i.id != id);
    if forall i :: i in xs ==> i.id != id {
      FilterAll(xs, (i: Interaction) => i.id != id);
    }
  }

  lemma WithoutBalanceReportSpec(reports: seq<BalanceReport>, userId: int)
    ensures forall r :: r in WithoutBalanceReport(reports, userId) <==> r in reports && r.userId != userId
    ensures IsSubsequence(WithoutBalanceReport(reports, userId), reports)
    ensures (forall r :: r in reports ==> r.userId != userId) ==> WithoutBalanceReport(reports, userId) == reports
  {
    FilterMembers(reports, (r: BalanceReport) => r.userId != userId);
    FilterIsSubsequence(reports, (r: BalanceReport) => r.userId != userId);
    if forall r :: r in reports ==> r.userId != userId {
      FilterAll(reports, (r: BalanceReport) => r.userId != userId);
    }
  }

  /** The page's state: the three fetched lists and the account status. Each
      DELETE is given its outcome `ok` (the response's `ok` flag; a thrown
      error also leaves the list as it was). */
  class Dashboard {
    var users: seq<User>
    var interactions: seq<Interaction>
    var balanceReports: seq<BalanceReport>
    var userStatus: Option<string>

    /** The initial state: empty lists and a `null` status (lines 100-120). */
    constructor()
      ensures users == [] && interactions == [] && balanceReports == []
      ensures userStatus == None
    {
      users := [];
      interactions := [];
      balanceReports := [];
      userStatus := None;
    }

    /** `setInteractions(data)` after a successful fetch (line 306). */
    method ReceiveInteractions(data: seq<Interaction>)
      modifies this
      ensures interactions == data
      ensures users == old(users) && balanceReports == old(balanceReports) && userStatus == old(userStatus)
    {
      interactions := data;
    }

    /** One run of the status effect (lines 331-342). */
    method UpdateStatus()
      modifies this
      ensures userStatus == NextStatus(HasValidInteraction(interactions), old(userStatus))
      ensures users == old(users) && interactions == old(interactions) && balanceReports == old(balanceReports)
    {
      var hasValid := false;
      for k := 0 to |interactions|
        invariant hasValid <==> exists j :: 0 <= j < k && IsValid(interactions[j])
      {
        if IsValid(interactions[k]) {
          hasValid := true;
        }
      }
      if !hasValid && userStatus != Some("new") {
        userStatus := Some("new");
      } else if hasValid && userStatus == Some("new") {
        userStatus := Some("returning");
      }
    }

    /** `deleteUser(id)` (lines 262-279). */
    method DeleteUser(id: int, ok: bool)
      modifies this
      ensures users == if ok then WithoutUser(old(users), id) else old(users)
      ensures interactions == old(interactions) && balanceReports == old(balanceReports) && userStatus == old(userStatus)
    {
      if ok {
        users := WithoutUser(users, id);
      }
    }

    /** `deleteInteraction(id)` (lines 344-360). */
    method DeleteInteraction(id: int, ok: bool)
      modifies this
      ensures interactions == if ok then WithoutInteraction(old(interactions), id) else old(interactions)
      ensures users == old(users) && balanceReports == old(balanceReports) && userStatus == old(userStatus)
    {
      if ok {
        interactions := WithoutInteraction(interactions, id);
      }
    }

    /** `deleteBalanceReport(userId)` (lines 391-412). */
    method DeleteBalanceReport(userId: int, ok: bool)
      modifies this
      ensures balanceReports == if ok then WithoutBalanceReport(old(balanceReports), userId) else old(balanceReports)
      ensures users == old(users) && interactions == old(interactions) && userStatus == old(userStatus)
    {
      if ok {
        balanceReports := WithoutBalanceReport(balanceReports, userId);
      }
    }

    /** `confirmDeleteInteraction` for a selection (lines 436-447): one
        DELETE per selected interaction, in order, each with its own outcome. */
    method DeleteSelected(selected: seq<int>, ok: seq<bool>)
      requires |ok| == |selected|
      modifies this
      ensures forall i :: i in interactions <==> i in old(interactions) && !DeletedBy(i.id, selected, ok, |selected|)
      ensures IsSubsequence(interactions, old(interactions))
      ensures users == old(users) && balanceReports == old(balanceReports) && userStatus == old(userStatus)
    {
      EmbedsIdentity(interactions);
      for k := 0 to |selected|
        invariant forall i :: i in interactions <==> i in old(interactions) && !DeletedBy(i.id, selected, ok, k)
        invariant IsSubsequence(interactions, old(interactions))
        invariant users == old(users) && balanceReports == old(balanceReports) && userStatus == old(userStatus)
      {
        var before := interactions;
        DeleteInteraction(selected[k], ok[k]);
        DeletedByStep(selected, ok, k);
        if ok[k] {
          WithoutInteractionSpec(before, selected[k]);
          SubsequenceTransitive(interactions, before, old(interactions));
        }
      }
    }
  }

  /** Some DELETE among the first `n` succeeded for `id`. */
  predicate DeletedBy(id: int, selected: seq<int>, ok: seq<bool>, n: int)
    requires 0 <= n <= |selected| == |ok|
  {
    exists j :: 0 <= j < n && ok[j] && selected[j] == id
  }

  lemma DeletedByStep(selected: seq<int>, ok: seq<bool>, k: int)
    requires 0 <= k < |selected| == |ok|
    ensures forall id :: DeletedBy(id, selected, ok, k + 1) <==> DeletedBy(id, selected, ok, k) || (ok[k] && selected[k] == id)
  {
  }
}
