/** Loading the bank: grouping the rows of the users-accounts-transactions join.

    The loop looks behind one row and closes an account or a user when the next row's key differs;
    an epilogue handles the last row. The result is proved to be the nested grouping of the rows. */
module StoreUsers {
  import opened Wrappers

  /** One row of the left join; a user without accounts or an account without transactions has
      nulls in the missing columns. */
  datatype Row<U, A, T> = Row(userId: Option<int>, user: U, account: Option<(int, A)>, transaction: Option<(int, T)>)

  datatype Account<A, T> = Account(info: A, transactions: map<int, T>)

  datatype User<U, A, T> = User(info: U, accounts: map<int, Account<A, T>>)

  function UserKey<U, A, T>(r: Row<U, A, T>): int {
    if r.userId.None? then -1 else r.userId.value
  }

  function AccountKey<U, A, T>(r: Row<U, A, T>): int {
    if r.account.None? then -1 else r.account.value.0
  }

  predicate InAccount<U, A, T>(r: Row<U, A, T>, u: int, a: int) {
    r.userId == Some(u) && r.account.Some? && r.account.value.0 == a
  }

  // ---- The grouping ----

  /** The transactions of account `a` of user `u` in the first `k` rows. */
  function TransactionsOf<U, A, T>(rows: seq<Row<U, A, T>>, k: nat, u: int, a: int): map<int, T>
    requires k <= |rows|
  {
    if k == 0 then map[]
    else
      var m, r := TransactionsOf(rows, k - 1, u, a), rows[k - 1];
      if InAccount(r, u, a) && r.transaction.Some? then m[r.transaction.value.0 := r.transaction.value.1] else m
  }

  /** The accounts of user `u` met in the first `k` rows, with all their transactions. */
  function AccountsOf<U, A, T>(rows: seq<Row<U, A, T>>, k: nat, u: int): map<int, Account<A, T>>
    requires k <= |rows|
  {
    if k == 0 then map[]
    else
      var m, r := AccountsOf(rows, k - 1, u), rows[k - 1];
      if r.userId == Some(u) && r.account.Some? then
        var (a, info) := r.account.value;
        m[a := Account(info, TransactionsOf(rows, |rows|, u, a))]
      else m
  }

  /** The users met in the first `k` rows, with all their accounts. */
  function UsersOf<U, A, T>(rows: seq<Row<U, A, T>>, k: nat): map<int, User<U, A, T>>
    requires k <= |rows|
  {
    if k == 0 then map[]
    else
      var m, r := UsersOf(rows, k - 1), rows[k - 1];
      if r.userId.None? then m
      else m[r.userId.value := User(r.user, AccountsOf(rows, |rows|, r.userId.value))]
  }

  function Grouping<U, A, T>(rows: seq<Row<U, A, T>>): map<int, User<U, A, T>> {
    UsersOf(rows, |rows|)
  }

  /** Identifiers are not negative, and a null column makes the columns joined through it null. */
  predicate Nested<U, A, T>(rows: seq<Row<U, A, T>>) {
    forall i :: 0 <= i < |rows| ==>
      && (rows[i].userId.Some? ==> rows[i].userId.value >= 0)
      && (rows[i].account.Some? ==> rows[i].account.value.0 >= 0)
      && (rows[i].userId.None? ==> rows[i].account.None?)
      && (rows[i].account.None? ==> rows[i].transaction.None?)
  }

  /** Rows of one user are adjacent. */
  predicate UsersAdjacent<U, A, T>(rows: seq<Row<U, A, T>>) {
    forall i, j, k :: 0 <= i < j < k < |rows| && UserKey(rows[i]) == UserKey(rows[k]) ==>
        UserKey(rows[j]) == UserKey(rows[i])
  }

  /** Rows of one account are adjacent and belong to one user. */
  predicate AccountsAdjacent<U, A, T>(rows: seq<Row<U, A, T>>) {
    && (forall i, j, k ::
          0 <= i < j < k < |rows| && AccountKey(rows[i]) == AccountKey(rows[k]) && AccountKey(rows[i]) != -1 ==>
          AccountKey(rows[j]) == AccountKey(rows[i]))
    && (forall i, k ::
          0 <= i < k < |rows| && AccountKey(rows[i]) == AccountKey(rows[k]) && AccountKey(rows[i]) != -1 ==>
          UserKey(rows[i]) == UserKey(rows[k]))
  }

  /** What the left join ordered by user, then account gives. */
  predicate Ordered<U, A, T>(rows: seq<Row<U, A, T>>) {
    Nested(rows) && UsersAdjacent(rows) && AccountsAdjacent(rows)
  }

  // ---- What later rows cannot change ----

  lemma {:induction false} TransactionsSettle<U, A, T>(rows: seq<Row<U, A, T>>, k: nat, n: nat, u: int, a: int)
    requires k <= n <= |rows|
    requires forall j :: k <= j < n ==> !InAccount(rows[j], u, a)
    ensures TransactionsOf(rows, n, u, a) == TransactionsOf(rows, k, u, a)
    decreases n
  {
    if k < n {
      TransactionsSettle(rows, k, n - 1, u, a);
    }
  }

  lemma {:induction false} AccountsSettle<U, A, T>(rows: seq<Row<U, A, T>>, k: nat, n: nat, u: int)
    requires k <= n <= |rows|
    requires forall j :: k <= j < n ==> rows[j].userId != Some(u)
    ensures AccountsOf(rows, n, u) == AccountsOf(rows, k, u)
    decreases n
  {
    if k < n {
      AccountsSettle(rows, k, n - 1, u);
    }
  }

  lemma {:induction false} AccountsKeys<U, A, T>(rows: seq<Row<U, A, T>>, k: nat, u: int, a: int)
    requires k <= |rows|
    ensures a in AccountsOf(rows, k, u) <==> exists i :: 0 <= i < k && InAccount(rows[i], u, a)
  {
    if k > 0 {
      AccountsKeys(rows, k - 1, u, a);
    }
  }

  lemma {:induction false} UsersKeys<U, A, T>(rows: seq<Row<U, A, T>>, k: nat, u: int)
    requires k <= |rows|
    ensures u in UsersOf(rows, k) <==> exists i :: 0 <= i < k && rows[i].userId == Some(u)
  {
    if k > 0 {
      UsersKeys(rows, k - 1, u);
    }
  }

  lemma {:induction false} NoTransactions<U, A, T>(rows: seq<Row<U, A, T>>, k: nat, u: int, a: int)
    requires k <= |rows| && forall i :: 0 <= i < k ==> !InAccount(rows[i], u, a)
    ensures TransactionsOf(rows, k, u, a) == map[]
  {
    if k > 0 {
      NoTransactions(rows, k - 1, u, a);
    }
  }

  // ---- The accumulators ----

  /** What the accumulators hold when `k` rows are done and the next row has user key `nu` and
      account key `na`: the open account's transactions, the open user's finished accounts, and the
      finished users on top of what the bank held before. */
  ghost predicate Accumulated<U(!new), A(!new), T(!new)>(
    rows: seq<Row<U, A, T>>, k: nat, nu: int, na: int, start: map<int, User<U, A, T>>,
    db: map<int, User<U, A, T>>, accounts: map<int, Account<A, T>>, transactions: map<int, T>)
    requires k <= |rows|
  {
    && transactions == TransactionsOf(rows, k, nu, na)
    && accounts == AccountsOf(rows, k, nu) - {na}
    && db == start + (UsersOf(rows, k) - {nu})
  }

  lemma StartEmpty<U(!new), A(!new), T(!new)>(rows: seq<Row<U, A, T>>, nu: int, na: int, start: map<int, User<U, A, T>>)
    ensures Accumulated(rows, 0, nu, na, start, start, map[], map[])
  {
    assert start + (UsersOf(rows, 0) - {nu}) == start;
  }

  /** No row from `k + 1` on belongs to the account of row `k` when the next row does not. */
  lemma AccountCloses<U, A, T>(rows: seq<Row<U, A, T>>, k: nat)
    requires Ordered(rows) && k < |rows| && rows[k].account.Some? && rows[k].userId.Some?
    requires k + 1 < |rows| ==> AccountKey(rows[k + 1]) != AccountKey(rows[k])
    ensures var u, a := rows[k].userId.value, rows[k].account.value.0;
            TransactionsOf(rows, k + 1, u, a) == TransactionsOf(rows, |rows|, u, a)
  {
    hide UsersAdjacent;
    var u, a := rows[k].userId.value, rows[k].account.value.0;
    forall j | k + 1 <= j < |rows| ensures !InAccount(rows[j], u, a) {
    }
    TransactionsSettle(rows, k + 1, |rows|, u, a);
  }

  lemma UserCloses<U, A, T>(rows: seq<Row<U, A, T>>, k: nat)
    requires Ordered(rows) && k < |rows| && rows[k].userId.Some?
    requires k + 1 < |rows| ==> UserKey(rows[k + 1]) != UserKey(rows[k])
    ensures AccountsOf(rows, k + 1, rows[k].userId.value) == AccountsOf(rows, |rows|, rows[k].userId.value)
  {
    hide AccountsAdjacent;
    var u := rows[k].userId.value;
    forall j | k + 1 <= j < |rows| ensures rows[j].userId != Some(u) {
    }
    AccountsSettle(rows, k + 1, |rows|, u);
  }

  /** The next row's keys are new to the rows before, unless they repeat row `k`'s. */
  lemma FreshKeys<U, A, T>(rows: seq<Row<U, A, T>>, k: nat)
    requires Ordered(rows) && k + 1 < |rows|
    ensures UserKey(rows[k + 1]) != UserKey(rows[k]) ==>
              forall i :: 0 <= i <= k ==> UserKey(rows[i]) != UserKey(rows[k + 1])
    ensures AccountKey(rows[k + 1]) != AccountKey(rows[k]) && AccountKey(rows[k + 1]) != -1 ==>
              forall i :: 0 <= i <= k ==> AccountKey(rows[i]) != AccountKey(rows[k + 1])
  {
  }

  /** The account part of a row's effect on the grouping of its user. */
  lemma AccountStep<U, A, T>(rows: seq<Row<U, A, T>>, k: nat, transactions: map<int, T>)
    requires Ordered(rows) && k < |rows| && rows[k].userId.Some?
    requires transactions == TransactionsOf(rows, k + 1, UserKey(rows[k]), AccountKey(rows[k]))
    ensures var u, a := UserKey(rows[k]), AccountKey(rows[k]);
            var accounts := AccountsOf(rows, k, u) - {a};
            if rows[k].account.None? then AccountsOf(rows, k + 1, u) == accounts
            else if k + 1 < |rows| && AccountKey(rows[k + 1]) == a then AccountsOf(rows, k + 1, u) - {a} == accounts
            else AccountsOf(rows, k + 1, u) == accounts[a := Account(rows[k].account.value.1, transactions)]
  {
    hide UsersAdjacent, AccountsAdjacent;
    var u, a := UserKey(rows[k]), AccountKey(rows[k]);
    if rows[k].account.None? {
      AccountsKeys(rows, k, u, -1);
    } else if !(k + 1 < |rows| && AccountKey(rows[k + 1]) == a) {
      AccountCloses(rows, k);
    }
  }

  /** The user part of a row's effect. */
  lemma UserStep<U(!new), A(!new), T(!new)>(
    rows: seq<Row<U, A, T>>, k: nat, start: map<int, User<U, A, T>>, db: map<int, User<U, A, T>>)
    requires Ordered(rows) && k < |rows| && rows[k].userId.Some?
    requires db == start + (UsersOf(rows, k) - {UserKey(rows[k])})
    ensures var u := UserKey(rows[k]);
            if k + 1 < |rows| && UserKey(rows[k + 1]) == u then db == start + (UsersOf(rows, k + 1) - {u})
            else db[u := User(rows[k].user, AccountsOf(rows, k + 1, u))] == start + UsersOf(rows, k + 1)
  {
    hide Ordered;
    hide AccountsOf;
    var u := UserKey(rows[k]);
    if !(k + 1 < |rows| && UserKey(rows[k + 1]) == u) {
      UserCloses(rows, k);
    }
  }

  /** Keys that no row so far has leave no trace in the accumulators. */
  lemma FreshUser<U(!new), A(!new), T(!new)>(rows: seq<Row<U, A, T>>, k: nat, nu: int, na: int)
    requires k <= |rows| && forall i :: 0 <= i < k ==> rows[i].userId != Some(nu)
    ensures TransactionsOf(rows, k, nu, na) == map[] && AccountsOf(rows, k, nu) == map[]
    ensures nu !in UsersOf(rows, k)
  {
    NoTransactions(rows, k, nu, na);
    AccountsSettle(rows, 0, k, nu);
    UsersKeys(rows, k, nu);
  }

  lemma FreshAccount<U(!new), A(!new), T(!new)>(rows: seq<Row<U, A, T>>, k: nat, nu: int, na: int)
    requires k <= |rows| && forall i :: 0 <= i < k ==> !InAccount(rows[i], nu, na)
    ensures TransactionsOf(rows, k, nu, na) == map[] && na !in AccountsOf(rows, k, nu)
  {
    NoTransactions(rows, k, nu, na);
    AccountsKeys(rows, k, nu, na);
  }

  /** The body of the loop of store_users for the row before the current one. */
  method StepRow<U(!new), A(!new), T(!new)>(
    rows: seq<Row<U, A, T>>, k: nat, ghost start: map<int, User<U, A, T>>,
    db: map<int, User<U, A, T>>, accounts: map<int, Account<A, T>>, transactions: map<int, T>)
    returns (db': map<int, User<U, A, T>>, accounts': map<int, Account<A, T>>, transactions': map<int, T>)
    requires Ordered(rows) && k + 1 < |rows|
    requires Accumulated(rows, k, UserKey(rows[k]), AccountKey(rows[k]), start, db, accounts, transactions)
    ensures Accumulated(rows, k + 1, UserKey(rows[k + 1]), AccountKey(rows[k + 1]), start, db', accounts',
            transactions')
  {
    hide Ordered;
    db', accounts', transactions' := db, accounts, transactions;
    NextKeys(rows, k);
    var prev, curr := rows[k], rows[k + 1];
    var prevUserId, currUserId := UserKey(prev), UserKey(curr);
    var prevAccountId, currAccountId := AccountKey(prev), AccountKey(curr);
    if prev.userId.None? {
      NullUser(rows, k);
      return;
    }
    if prev.transaction.Some? {
      transactions' := transactions'[prev.transaction.value.0 := prev.transaction.value.1];
    }
    AccountStep(rows, k, transactions');
    UserStep(rows, k, start, db);
    hide TransactionsOf, AccountsOf, UsersOf;
    Minus(AccountsOf(rows, k + 1, currUserId), currAccountId);
    Minus(AccountsOf(rows, k + 1, prevUserId), prevAccountId);
    Minus(UsersOf(rows, k + 1), currUserId);
    if prev.account.Some? {
      if prevAccountId != currAccountId {
        accounts' := accounts'[prevAccountId := Account(prev.account.value.1, transactions')];
        transactions' := map[];
      }
    }
    assert prevUserId != currUserId ==> accounts' == AccountsOf(rows, k + 1, prevUserId);
    assert prevUserId == currUserId ==> accounts' == AccountsOf(rows, k + 1, currUserId) - {currAccountId};
    assert prevUserId == currUserId ==> transactions' == TransactionsOf(rows, k + 1, currUserId, currAccountId);
    if prevUserId != currUserId {
      db' := db'[prev.userId.value := User(prev.user, accounts')];
      transactions' := map[];
      accounts' := map[];
    }
  }

  lemma Minus<V>(m: map<int, V>, x: int)
    ensures x !in m ==> m - {x} == m
  {
  }

  /** What the next row's keys mean for the grouping of the rows up to row `k`. */
  lemma NextKeys<U(!new), A(!new), T(!new)>(rows: seq<Row<U, A, T>>, k: nat)
    requires Ordered(rows) && k + 1 < |rows|
    ensures var u, a, nu, na := UserKey(rows[k]), AccountKey(rows[k]), UserKey(rows[k + 1]), AccountKey(rows[k + 1]);
            && (nu != u ==> TransactionsOf(rows, k + 1, nu, na) == map[] && AccountsOf(rows, k + 1, nu) == map[]
                            && nu !in UsersOf(rows, k + 1))
            && (na != a || na == -1 ==>
                  TransactionsOf(rows, k + 1, nu, na) == map[] && na !in AccountsOf(rows, k + 1, nu))
            && (a == -1 ==> TransactionsOf(rows, k + 1, u, a) == map[])
            && (a == na && a != -1 ==> u == nu)
            && (rows[k].account.Some? ==> a != -1) && (rows[k].userId.Some? ==> u != -1)
            && (rows[k].transaction.Some? ==> rows[k].account.Some?)
  {
    hide UsersAdjacent;
    FreshKeys(rows, k);
    var u, a, nu, na := UserKey(rows[k]), AccountKey(rows[k]), UserKey(rows[k + 1]), AccountKey(rows[k + 1]);
    if nu != u {
      FreshUser(rows, k + 1, nu, na);
    }
    if na != a || na == -1 {
      FreshAccount(rows, k + 1, nu, na);
    }
    if a == -1 {
      FreshAccount(rows, k + 1, u, a);
    }
  }

  lemma NoNegativeUser<U, A, T>(rows: seq<Row<U, A, T>>, i: nat)
    requires Ordered(rows) && i < |rows|
    ensures rows[i].userId != Some(-1)
    ensures rows[i].userId.None? ==> AccountKey(rows[i]) == -1
  {
    hide UsersAdjacent, AccountsAdjacent;
  }

  /** A row without a user changes nothing. */
  lemma NullUser<U(!new), A(!new), T(!new)>(rows: seq<Row<U, A, T>>, k: nat)
    requires Ordered(rows) && k + 1 < |rows| && rows[k].userId.None?
    ensures var nu, na := UserKey(rows[k + 1]), AccountKey(rows[k + 1]);
            && TransactionsOf(rows, k, -1, -1) == TransactionsOf(rows, k + 1, nu, na)
            && AccountsOf(rows, k, -1) - {-1} == AccountsOf(rows, k + 1, nu) - {na}
            && UsersOf(rows, k) - {-1} == UsersOf(rows, k + 1) - {nu}
            && AccountKey(rows[k]) == -1
  {
    hide Ordered;
    FreshKeys(rows, k);
    forall i | 0 <= i < |rows| ensures rows[i].userId != Some(-1) {
      NoNegativeUser(rows, i);
    }
    NoNegativeUser(rows, k);
    hide TransactionsOf, AccountsOf;
    var nu, na := UserKey(rows[k + 1]), AccountKey(rows[k + 1]);
    forall i | 0 <= i <= k ensures rows[i].userId != Some(nu) {
      assert nu != -1 ==> UserKey(rows[i]) != nu;
    }
    FreshUser(rows, k, -1, -1);
    FreshUser(rows, k + 1, nu, na);
    assert UsersOf(rows, k + 1) == UsersOf(rows, k);
    hide UsersOf;
    Minus(UsersOf(rows, k), -1);
    Minus(UsersOf(rows, k + 1), nu);
  }

  class LoadDb<U(!new), A(!new), T(!new)> {
    var bankDb: map<int, User<U, A, T>>

    constructor ()
      ensures bankDb == map[]
    {
      bankDb := map[];
    }

    /** store_users. */
    method StoreUsers(res: seq<Row<U, A, T>>)
      requires Ordered(res)
      modifies this
      ensures bankDb == old(bankDb) + Grouping(res)
    {
      hide Ordered, TransactionsOf, AccountsOf, UsersOf, Accumulated;
      var transactions: map<int, T>, accounts: map<int, Account<A, T>> := map[], map[];
      if res == [] {
        NoRows(res, bankDb);
        return;
      }
      StartEmpty(res, UserKey(res[0]), AccountKey(res[0]), bankDb);
      var i := 1;
      while i < |res|
        invariant 1 <= i <= |res|
        invariant Accumulated(res, i - 1, UserKey(res[i - 1]), AccountKey(res[i - 1]), old(bankDb), bankDb,
                  accounts, transactions)
      {
        bankDb, accounts, transactions := StepRow(res, i - 1, old(bankDb), bankDb, accounts, transactions);
        i := i + 1;
      }
      var last := |res| - 1;
      LastRow(res, old(bankDb), bankDb, accounts, transactions);
      if res[last].userId.Some? {
        if res[last].transaction.Some? {
          transactions := transactions[res[last].transaction.value.0 := res[last].transaction.value.1];
        }
        if res[last].account.Some? {
          accounts := accounts[res[last].account.value.0 := Account(res[last].account.value.1, transactions)];
        }
        bankDb := bankDb[res[last].userId.value := User(res[last].user, accounts)];
      }
    }
  }

  lemma NoRows<U(!new), A(!new), T(!new)>(rows: seq<Row<U, A, T>>, start: map<int, User<U, A, T>>)
    requires rows == []
    ensures start + Grouping(rows) == start
  {
  }

  /** The epilogue's effect. */
  lemma LastRow<U(!new), A(!new), T(!new)>(
    rows: seq<Row<U, A, T>>, start: map<int, User<U, A, T>>,
    db: map<int, User<U, A, T>>, accounts: map<int, Account<A, T>>, transactions: map<int, T>)
    requires Ordered(rows) && rows != []
    requires var r := rows[|rows| - 1]; Accumulated(rows, |rows| - 1, UserKey(r), AccountKey(r), start, db,
             accounts, transactions)
    ensures var r := rows[|rows| - 1];
            if r.userId.None? then db == start + Grouping(rows)
            else
              var ts := if r.transaction.Some? then transactions[r.transaction.value.0 := r.transaction.value.1]
                        else transactions;
              var as' := if r.account.Some? then accounts[r.account.value.0 := Account(r.account.value.1, ts)]
                  else accounts;
              db[r.userId.value := User(r.user, as')] == start + Grouping(rows)
  {
    hide UsersAdjacent, AccountsAdjacent, AccountsOf;
    var k := |rows| - 1;
    var r := rows[k];
    if r.userId.None? {
      FreshUser(rows, k, -1, -1);
    } else {
      var ts := if r.transaction.Some? then transactions[r.transaction.value.0 := r.transaction.value.1]
                else transactions;
      AccountStep(rows, k, ts);
      UserStep(rows, k, start, db);
    }
  }

  // ---- What the grouping means ----

  /** What the join repeats agrees, and a row with nulls stands alone for its user or account. */
  predicate Consistent<U(==), A(==), T(==)>(rows: seq<Row<U, A, T>>) {
    forall i, j :: 0 <= i < |rows| && 0 <= j < |rows| && rows[i].userId == rows[j].userId && rows[i].userId.Some? ==>
      Agree(rows[i], rows[j])
  }

  /** Two rows of one user. */
  predicate Agree<U(==), A(==), T(==)>(r: Row<U, A, T>, s: Row<U, A, T>) {
    && r.user == s.user
    && (r.account.None? ==> s.account.None?)
    && (r.account.Some? && s.account.Some? && r.account.value.0 == s.account.value.0 ==>
          && r.account == s.account
          && (r.transaction.None? ==> s.transaction.None?)
          && (r.transaction.Some? && s.transaction.Some? && r.transaction.value.0 == s.transaction.value.0 ==>
                r.transaction == s.transaction))
  }

  /** A row of the flattened bank: an account's transaction, or an account without any, or a user
      without accounts. */
  predicate FlatRow<U(==), A(==), T(==)>(db: map<int, User<U, A, T>>, r: Row<U, A, T>) {
    && r.userId.Some? && r.userId.value in db
    && var user := db[r.userId.value];
       && user.info == r.user
       && match r.account {
            case None => user.accounts == map[] && r.transaction.None?
            case Some((a, info)) =>
              && a in user.accounts && user.accounts[a].info == info
              && match r.transaction {
                   case None => user.accounts[a].transactions == map[]
                   case Some((t, x)) => t in user.accounts[a].transactions && user.accounts[a].transactions[t] == x
                 }
          }
  }

  lemma {:induction false} TransactionsMeaning<U, A, T>(rows: seq<Row<U, A, T>>, k: nat, i: nat, u: int, a: int)
    requires k <= |rows| && Consistent(rows) && i < k
    requires InAccount(rows[i], u, a) && rows[i].transaction.Some?
    ensures var (t, x) := rows[i].transaction.value;
            t in TransactionsOf(rows, k, u, a) && TransactionsOf(rows, k, u, a)[t] == x
  {
    if i < k - 1 {
      TransactionsMeaning(rows, k - 1, i, u, a);
      assert rows[i].userId == rows[k - 1].userId ==> Agree(rows[i], rows[k - 1]);
    }
  }

  lemma {:induction false} TransactionsOrigin<U, A, T>(rows: seq<Row<U, A, T>>, k: nat, u: int, a: int, t: int)
    returns (i: nat)
    requires k <= |rows| && t in TransactionsOf(rows, k, u, a)
    ensures i < k && InAccount(rows[i], u, a)
    ensures rows[i].transaction == Some((t, TransactionsOf(rows, k, u, a)[t]))
  {
    var r := rows[k - 1];
    if InAccount(r, u, a) && r.transaction.Some? && r.transaction.value.0 == t {
      i := k - 1;
    } else {
      i := TransactionsOrigin(rows, k - 1, u, a, t);
    }
  }

  lemma {:induction false} AccountsMeaning<U, A, T>(rows: seq<Row<U, A, T>>, k: nat, i: nat, u: int, a: int)
    requires k <= |rows| && Consistent(rows) && i < k && InAccount(rows[i], u, a)
    ensures a in AccountsOf(rows, k, u)
    ensures AccountsOf(rows, k, u)[a] == Account(rows[i].account.value.1, TransactionsOf(rows, |rows|, u, a))
  {
    if i < k - 1 {
      AccountsMeaning(rows, k - 1, i, u, a);
      assert rows[i].userId == rows[k - 1].userId ==> Agree(rows[i], rows[k - 1]);
    }
  }

  lemma {:induction false} UsersMeaning<U, A, T>(rows: seq<Row<U, A, T>>, k: nat, i: nat)
    requires k <= |rows| && Consistent(rows) && i < k && rows[i].userId.Some?
    ensures var u := rows[i].userId.value;
            u in UsersOf(rows, k) && UsersOf(rows, k)[u] == User(rows[i].user, AccountsOf(rows, |rows|, u))
  {
    if i < k - 1 {
      UsersMeaning(rows, k - 1, i);
      assert rows[i].userId == rows[k - 1].userId ==> Agree(rows[i], rows[k - 1]);
    }
  }

  lemma LoneUser<U, A, T>(rows: seq<Row<U, A, T>>, i: nat, u: int)
    requires Consistent(rows) && i < |rows| && rows[i].userId == Some(u) && rows[i].account.None?
    ensures AccountsOf(rows, |rows|, u) == map[]
  {
    hide AccountsOf, Consistent;
    forall a ensures a !in AccountsOf(rows, |rows|, u) {
      AccountsKeys(rows, |rows|, u, a);
      forall j | 0 <= j < |rows| ensures !InAccount(rows[j], u, a) {
        if rows[j].userId == Some(u) {
          AgreeRows(rows, i, j);
        }
      }
    }
  }

  lemma {:induction false} LoneAccount<U, A, T>(rows: seq<Row<U, A, T>>, k: nat, i: nat, u: int, a: int)
    requires Consistent(rows) && i < |rows| && k <= |rows|
    requires InAccount(rows[i], u, a) && rows[i].transaction.None?
    ensures TransactionsOf(rows, k, u, a) == map[]
    decreases k
  {
    if k > 0 {
      LoneAccount(rows, k - 1, i, u, a);
      if InAccount(rows[k - 1], u, a) {
        assert Agree(rows[i], rows[k - 1]);
      }
    }
  }

  /** Every row of a user lands in the grouping. */
  lemma RowIsGrouped<U, A, T>(rows: seq<Row<U, A, T>>, i: nat)
    requires Ordered(rows) && Consistent(rows) && i < |rows| && rows[i].userId.Some?
    ensures FlatRow(Grouping(rows), rows[i])
  {
    hide UsersAdjacent, AccountsAdjacent;
    var n, r := |rows|, rows[i];
    var u := r.userId.value;
    assert r.account.None? ==> r.transaction.None?;
    hide Ordered, TransactionsOf, AccountsOf, UsersOf, Consistent, Agree;
    UsersMeaning(rows, n, i);
    if r.account.None? {
      LoneUser(rows, i, u);
    } else {
      var a := r.account.value.0;
      AccountsMeaning(rows, n, i, u, a);
      if r.transaction.Some? {
        TransactionsMeaning(rows, n, i, u, a);
      } else {
        LoneAccount(rows, n, i, u, a);
      }
    }
  }

  lemma AgreeRows<U, A, T>(rows: seq<Row<U, A, T>>, i: nat, j: nat)
    requires Consistent(rows) && i < |rows| && j < |rows| && rows[i].userId == rows[j].userId && rows[i].userId.Some?
    ensures Agree(rows[i], rows[j]) && Agree(rows[j], rows[i])
    ensures rows[i].user == rows[j].user && (rows[i].account.None? <==> rows[j].account.None?)
  {
  }

  /** Flattening gives back the rows: a row is in the flattened bank exactly if it is one of the
      loaded rows, so every user, account and transaction lands under its owner and nothing else does. */
  lemma FlatteningGivesRows<U, A, T>(rows: seq<Row<U, A, T>>, r: Row<U, A, T>)
    requires Ordered(rows) && Consistent(rows)
    ensures FlatRow(Grouping(rows), r) <==> r in rows && r.userId.Some?
  {
    if r in rows && r.userId.Some? {
      var i :| 0 <= i < |rows| && rows[i] == r;
      RowIsGrouped(rows, i);
    }
    if FlatRow(Grouping(rows), r) {
      var i := FlatRowOrigin(rows, r);
    }
  }

  lemma FlatRowOrigin<U, A, T>(rows: seq<Row<U, A, T>>, r: Row<U, A, T>) returns (i: nat)
    requires Ordered(rows) && Consistent(rows) && FlatRow(Grouping(rows), r)
    ensures i < |rows| && rows[i] == r
  {
    hide UsersAdjacent, AccountsAdjacent;
    var n, u := |rows|, r.userId.value;
    assert forall j :: 0 <= j < n && rows[j].account.None? ==> rows[j].transaction.None?;
    hide Ordered, TransactionsOf, AccountsOf, UsersOf, Consistent, Agree;
    UsersKeys(rows, n, u);
    i :| 0 <= i < n && rows[i].userId == Some(u);
    UsersMeaning(rows, n, i);
    if r.account.None? {
      if rows[i].account.Some? {
        AccountsMeaning(rows, n, i, u, rows[i].account.value.0);
      }
    } else {
      var a := r.account.value.0;
      AccountsKeys(rows, n, u, a);
      i :| 0 <= i < n && InAccount(rows[i], u, a);
      AccountsMeaning(rows, n, i, u, a);
      UsersMeaning(rows, n, i);
      if r.transaction.Some? {
        var t := r.transaction.value.0;
        i := TransactionsOrigin(rows, n, u, a, t);
        AccountsMeaning(rows, n, i, u, a);
        UsersMeaning(rows, n, i);
      } else if rows[i].transaction.Some? {
        TransactionsMeaning(rows, n, i, u, a);
      }
    }
  }

  /** No account is loaded under two users. */
  lemma OneOwner<U, A, T>(rows: seq<Row<U, A, T>>, u: int, v: int, a: int)
    requires Ordered(rows)
    requires a in AccountsOf(rows, |rows|, u) && a in AccountsOf(rows, |rows|, v)
    ensures u == v
  {
    AccountsKeys(rows, |rows|, u, a);
    AccountsKeys(rows, |rows|, v, a);
    var i :| 0 <= i < |rows| && InAccount(rows[i], u, a);
    var j :| 0 <= j < |rows| && InAccount(rows[j], v, a);
    assert rows[i].account.value.0 >= 0;
    assert AccountKey(rows[i]) == AccountKey(rows[j]) == a;
    if i < j {
      assert UserKey(rows[i]) == UserKey(rows[j]);
    } else if j < i {
      assert UserKey(rows[j]) == UserKey(rows[i]);
    }
  }
}
