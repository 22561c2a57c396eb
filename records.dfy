/** The records the admin pages receive from the backend: a user account and
    the summary row of a user's balance report. Only the fields the pages
    compute with are kept. */
module Records {

  /** A row of `GET /users`: `id` and `username`. */
  datatype User = User(id: int, username: string)

  /** A row of `GET /admin/balance-summary`, keyed by `user_id`. */
  datatype BalanceReport = BalanceReport(userId: int)
}
