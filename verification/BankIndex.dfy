/** The bank's secondary index from accounts to users, built from the nested tables once. */
module BankIndex {
  import opened HashTable
  import opened Wrappers

  /** The accounts of one user, as its own table lists them. */
  type Accounts<A> = Bucket<int, A>

  /** Whether some user holds the account. */
  ghost predicate Held<A>(users: map<int, Accounts<A>>, account: int) {
    exists u :: u in users && account in MapOf(users[u])
  }

  /** The index knows every held account and names a user that holds it. */
  ghost predicate Indexes<A>(index: map<int, int>, users: map<int, Accounts<A>>) {
    && (forall a :: a in index <==> Held(users, a))
    && forall a :: a in index ==> index[a] in users && a in MapOf(users[index[a]])
  }

  /** The flat account map: every held account with its data, which all its holders share. */
  ghost predicate Flattens<A(!new)>(flat: map<int, A>, users: map<int, Accounts<A>>) {
    && (forall a :: a in flat <==> Held(users, a))
    && forall a, u :: u in users && a in MapOf(users[u]) ==> a in flat && flat[a] == MapOf(users[u])[a]
  }

  /** The lookup that findAccount performs. */
  ghost function Lookup<A>(index: map<int, int>, users: map<int, Accounts<A>>, account: int): Option<A> {
    if account in index && index[account] in users && account in MapOf(users[index[account]])
    then Some(MapOf(users[index[account]])[account])
    else None
  }

  /** Lookup through the index is lookup in the flat account map. */
  lemma LookupIsFlat<A(!new)>(index: map<int, int>, users: map<int, Accounts<A>>, flat: map<int, A>, account: int)
    requires Indexes(index, users) && Flattens(flat, users)
    ensures Lookup(index, users, account) == if account in flat then Some(flat[account]) else None
  {
    hide MapOf;
    if account in index {
      var u := index[account];
      assert u in users && account in MapOf(users[u]);
      assert flat[account] == MapOf(users[u])[account];
    } else {
      assert !Held(users, account);
    }
  }

  lemma LookupFinds<A>(index: map<int, int>, users: map<int, Accounts<A>>, account: int)
    requires Indexes(index, users)
    ensures Lookup(index, users, account).None? <==> !Held(users, account)
  {
    hide MapOf;
  }

  class Bank<A> {
    const db: HashTable<int, Accounts<A>>
    const accountIdToUserId: HashTable<int, int>

    ghost predicate Valid()
      reads this, db, accountIdToUserId
    {
      && db.Valid() && accountIdToUserId.Valid() && Tables(db.Model())
      && Indexes(accountIdToUserId.Model(), db.Model())
    }

    constructor (db: HashTable<int, Accounts<A>>, hash: int -> nat)
      requires db.Valid() && Tables(db.Model())
      ensures Valid() && this.db == db && fresh(accountIdToUserId)
    {
      hide MapOf, IndexesFirst, Indexes, UniqueKeys;
      this.db := db;
      var index := new HashTable<int, int>(hash, 16);
      ghost var users := db.Model();
      var all := db.GetAll();
      NothingIndexed(all);
      for i := 0 to |all|
        invariant fresh(index) && index.Valid() && db.Valid() && db.Model() == users
        invariant IndexesFirst(index.Model(), all, i, 0)
      {
        var userId: int, accounts: Accounts<A> := all[i].0, all[i].1;
        for j := 0 to |accounts|
          invariant fresh(index) && index.Valid() && db.Valid() && db.Model() == users
          invariant IndexesFirst(index.Model(), all, i, j)
        {
          index.Insert(accounts[j].0, userId);
          IndexStep(all, i, j, index.Model());
        }
        IndexRow(index.Model(), all, i);
      }
      IndexDone(index.Model(), all);
      this.accountIdToUserId := index;
    }

    /** findAccount. */
    method FindAccount(accountId: int) returns (r: Option<A>)
      requires Valid()
      ensures r == Lookup(accountIdToUserId.Model(), db.Model(), accountId)
      ensures r.None? <==> !Held(db.Model(), accountId)
    {
      hide MapOf, Indexes;
      LookupFinds(accountIdToUserId.Model(), db.Model(), accountId);
      var userId := accountIdToUserId.Find(accountId);
      if userId.Some? {
        var user := db.Find(userId.value);
        if user.Some? {
          for i := 0 to |user.value|
            invariant forall j :: 0 <= j < i ==> user.value[j].0 != accountId
          {
            if user.value[i].0 == accountId {
              MapOfAt(user.value, i);
              return Some(user.value[i].1);
            }
          }
          BucketHasKey(user.value, accountId);
        }
      }
      return None;
    }
  }

  ghost predicate Tables<A>(users: map<int, Accounts<A>>) {
    forall u :: u in users ==> UniqueKeys(users[u])
  }

  /** The pair (i, j) comes before (n, m) in the order of the constructor's loops. */
  predicate Before(i: nat, j: nat, n: nat, m: nat) {
    i < n || (i == n && j < m)
  }

  /** The index covers the accounts that the constructor's loops have passed. */
  ghost predicate IndexesFirst<A>(index: map<int, int>, all: Bucket<int, Accounts<A>>, n: nat, m: nat) {
    && (forall i, j :: 0 <= i < |all| && 0 <= j < |all[i].1| && Before(i, j, n, m) ==> all[i].1[j].0 in index)
    && forall a :: a in index ==>
         exists i, j :: 0 <= i < |all| && 0 <= j < |all[i].1| && Before(i, j, n, m) &&
                        all[i].1[j].0 == a && all[i].0 == index[a]
  }

  lemma NothingIndexed<A>(all: Bucket<int, Accounts<A>>)
    ensures IndexesFirst(map[], all, 0, 0)
  {
  }

  lemma IndexStep<A>(all: Bucket<int, Accounts<A>>, n: nat, m: nat, after: map<int, int>)
    requires n < |all| && m < |all[n].1|
    requires exists index :: IndexesFirst(index, all, n, m) && after == index[all[n].1[m].0 := all[n].0]
    ensures IndexesFirst(after, all, n, m + 1)
  {
    var index :| IndexesFirst(index, all, n, m) && after == index[all[n].1[m].0 := all[n].0];
    forall a | a in after
      ensures exists i, j :: 0 <= i < |all| && 0 <= j < |all[i].1| && Before(i, j, n, m + 1) &&
                             all[i].1[j].0 == a && all[i].0 == after[a]
    {
      if a == all[n].1[m].0 {
        assert Before(n, m, n, m + 1);
      } else {
        var i, j :| 0 <= i < |all| && 0 <= j < |all[i].1| && Before(i, j, n, m) && all[i].1[j].0 == a &&
                    all[i].0 == index[a];
        assert Before(i, j, n, m + 1);
      }
    }
    forall i, j | 0 <= i < |all| && 0 <= j < |all[i].1| && Before(i, j, n, m + 1) ensures all[i].1[j].0 in after {
      assert Before(i, j, n, m) || (i == n && j == m);
    }
  }

  lemma IndexRow<A>(index: map<int, int>, all: Bucket<int, Accounts<A>>, n: nat)
    requires n < |all| && IndexesFirst(index, all, n, |all[n].1|)
    ensures IndexesFirst(index, all, n + 1, 0)
  {
    forall a | a in index
      ensures exists i, j :: 0 <= i < |all| && 0 <= j < |all[i].1| && Before(i, j, n + 1, 0) &&
                             all[i].1[j].0 == a && all[i].0 == index[a]
    {
      var i, j :| 0 <= i < |all| && 0 <= j < |all[i].1| && Before(i, j, n, |all[n].1|) && all[i].1[j].0 == a &&
                  all[i].0 == index[a];
      assert Before(i, j, n + 1, 0);
    }
    forall i, j | 0 <= i < |all| && 0 <= j < |all[i].1| && Before(i, j, n + 1, 0) ensures all[i].1[j].0 in index {
      assert Before(i, j, n, |all[n].1|);
    }
  }

  lemma IndexDone<A>(index: map<int, int>, all: Bucket<int, Accounts<A>>)
    requires UniqueKeys(all) && Tables(MapOf(all)) && IndexesFirst(index, all, |all|, 0)
    ensures Indexes(index, MapOf(all))
  {
    var users := MapOf(all);
    forall i | 0 <= i < |all| ensures all[i].0 in users && users[all[i].0] == all[i].1 {
      MapOfAt(all, i);
    }
    forall a | a in index ensures index[a] in users && a in MapOf(users[index[a]]) {
      var i, j :| 0 <= i < |all| && 0 <= j < |all[i].1| && Before(i, j, |all|, 0) && all[i].1[j].0 == a &&
                  all[i].0 == index[a];
    }
    forall a | Held(users, a) ensures a in index {
      var u :| u in users && a in MapOf(users[u]);
      var i :| 0 <= i < |all| && all[i].0 == u;
      var j :| 0 <= j < |all[i].1| && all[i].1[j].0 == a;
      assert Before(i, j, |all|, 0);
    }
  }
}
