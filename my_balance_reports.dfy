/** The administrator's list of balance reports,
    frontend/src/pages/MyBalanceReports.jsx: the report of a user, the users
    that have one, the two search boxes, and the confirmed deletion, which
    calls the dashboard's `deleteBalanceReport`. */
module MyBalanceReports {
  import opened Wrappers
  import opened Sequences
  import opened JsText
  import opened Records
  import AdminProfile

  predicate HasReport(reports: seq<BalanceReport>, userId: int)
  {
    exists i :: 0 <= i < |reports| && reports[i].userId == userId
  }

  /** `getBalanceReportForUser(userId)` (lines 89-91):
      `balanceReports.find(report => report.user_id === userId)`. */
  function ReportForUser(reports: seq<BalanceReport>, userId: int): (r: Option<BalanceReport>)
    ensures r.Some? <==> HasReport(reports, userId)
    ensures r.Some? ==> r.value in reports && r.value.userId == userId
  {
    if |reports| == 0 then None
    else if reports[0].userId == userId then Some(reports[0])
    else
      assert forall i :: 1 <= i < |reports| ==> reports[i] == reports[1..][i - 1];
      ReportForUser(reports[1..], userId)
  }

  /** The report found is the first one of the user. */
  lemma {:induction false} ReportForUserIsFirst(reports: seq<BalanceReport>, userId: int)
    requires HasReport(reports, userId)
    ensures exists i :: 0 <= i < |reports| && reports[i] == ReportForUser(reports, userId).value
                        && forall j :: 0 <= j < i ==> reports[j].userId != userId
  {
    if reports[0].userId == userId {
      assert reports[0] == ReportForUser(reports, userId).value;
    } else {
      var rest := reports[1..];
      assert forall i :: 1 <= i < |reports| ==> reports[i] == rest[i - 1];
      ReportForUserIsFirst(rest, userId);
      var i :| 0 <= i < |rest| && rest[i] == ReportForUser(rest, userId).value
               && forall j :: 0 <= j < i ==> rest[j].userId != userId;
      assert reports[i + 1] == ReportForUser(reports, userId).value;
    }
  }

  /** `usersWithReports` (line 93). */
  function UsersWithReports(users: seq<User>, reports: seq<BalanceReport>): seq<User>
  {
    Filter(users, (u: User) => ReportForUser(reports, u.id).Some?)
  }

  /** Exactly the users that have a report, in their original order. */
  lemma UsersWithReportsSpec(users: seq<User>, reports: seq<BalanceReport>)
    ensures forall u :: u in UsersWithReports(users, reports) <==> u in users && HasReport(reports, u.id)
    ensures IsSubsequence(UsersWithReports(users, reports), users)
  {
    FilterMembers(users, (u: User) => ReportForUser(reports, u.id).Some?);
    FilterIsSubsequence(users, (u: User) => ReportForUser(reports, u.id).Some?);
  }

  /** The search test: the username contains the username search, ignoring
      case, and the decimal id contains the id search as text. */
  predicate MatchesSearch(u: User, searchUsername: string, searchUserId: string)
  {
    Includes(ToLower(u.username), ToLower(searchUsername)) && Includes(DecimalString(u.id), searchUserId)
  }

  /** `filteredUsers` (lines 122-125). */
  function FilteredUsers(users: seq<User>, reports: seq<BalanceReport>, searchUsername: string, searchUserId: string)
    : seq<User>
  {
    Filter(UsersWithReports(users, reports), (u: User) => MatchesSearch(u, searchUsername, searchUserId))
  }

  /** The list shown keeps, in order, the users with a report that match
      both searches. */
  lemma FilteredUsersSpec(users: seq<User>, reports: seq<BalanceReport>, searchUsername: string, searchUserId: string)
    ensures forall u :: u in FilteredUsers(users, reports, searchUsername, searchUserId) <==>
      u in users && HasReport(reports, u.id) && MatchesSearch(u, searchUsername, searchUserId)
    ensures IsSubsequence(FilteredUsers(users, reports, searchUsername, searchUserId), UsersWithReports(users, reports))
    ensures IsSubsequence(FilteredUsers(users, reports, searchUsername, searchUserId), users)
  {
    var withReports := UsersWithReports(users, reports);
    UsersWithReportsSpec(users, reports);
    FilterMembers(withReports, (u: User) => MatchesSearch(u, searchUsername, searchUserId));
    FilterIsSubsequence(withReports, (u: User) => MatchesSearch(u, searchUsername, searchUserId));
    SubsequenceTransitive(FilteredUsers(users, reports, searchUsername, searchUserId), withReports, users);
  }

  /** With both boxes empty every user with a report is listed. */
  lemma EmptySearchKeepsAll(users: seq<User>, reports: seq<BalanceReport>)
    ensures FilteredUsers(users, reports, "", "") == UsersWithReports(users, reports)
  {
    forall u | u in UsersWithReports(users, reports) ensures MatchesSearch(u, "", "") {
      IncludesTrivial(ToLower(u.username));
      IncludesTrivial(DecimalString(u.id));
    }
    FilterAll(UsersWithReports(users, reports), (u: User) => MatchesSearch(u, "", ""));
  }

  /** The id search is a substring test on the decimal text: "1" finds user 12. */
  lemma IdSearchIsSubstring()
    ensures MatchesSearch(User(12, "ana"), "", "1")
  {
    IncludesTrivial(ToLower("ana"));
    assert DecimalString(12) == "12";
    assert OccursAt("12", "1", 0);
    IncludesAt("12", "1", 0);
  }

  /** `confirmDelete` (lines 108-117) on the dashboard that owns the reports:
      with a report selected, its `user_id` is deleted; with none, nothing
      happens. `ok` is the outcome of the DELETE. */
  method ConfirmDelete(dashboard: AdminProfile.Dashboard, selected: Option<BalanceReport>, ok: bool)
    modifies dashboard
    ensures dashboard.balanceReports ==
      if selected.Some? && ok then AdminProfile.WithoutBalanceReport(old(dashboard.balanceReports), selected.value.userId)
      else old(dashboard.balanceReports)
    ensures dashboard.users == old(dashboard.users) && dashboard.interactions == old(dashboard.interactions)
    ensures dashboard.userStatus == old(dashboard.userStatus)
  {
    if selected.Some? {
      dashboard.DeleteBalanceReport(selected.value.userId, ok);
    }
  }
}
