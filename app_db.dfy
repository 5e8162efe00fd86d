/**
 * The local account table of the client: the `Account` entity, the meaning
 * of each of the four mutating statements of its data-access object, and the two
 * layers (repository, view model) that forward to it.
 *
 * The table is a sequence of rows. The `SELECT * FROM account` query has no
 * `ORDER BY`, so the model takes the sequence order as the order a snapshot
 * is observed in: an inserted row goes last and a delete keeps the order of
 * the other rows.
 */
module AppDb {

  datatype Option<T> = None | Some(value: T)

  /** One saved login, keyed by `id`; `isDefault` is the `default_` column. */
  datatype Account = Account(
    id: int,
    isDefault: bool,
    instance: string,
    name: string,
    avatar: Option<string>,
    jwt: string)

  /** The row with its default flag cleared: every column except `default_`. */
  function Unflagged(a: Account): Account
  {
    a.(isDefault := false)
  }

  predicate HasId(rows: seq<Account>, id: int)
  {
    exists i :: 0 <= i < |rows| && rows[i].id == id
  }

  /** The primary-key constraint on `id`. */
  predicate UniqueIds(rows: seq<Account>)
  {
    forall i, j :: 0 <= i < j < |rows| ==> rows[i].id != rows[j].id
  }

  /** `a` and `b` hold the same rows in the same order, up to `default_` flags. */
  predicate SameExceptFlags(a: seq<Account>, b: seq<Account>)
  {
    |a| == |b| && forall i :: 0 <= i < |a| ==> Unflagged(a[i]) == Unflagged(b[i])
  }

  /** Number of rows whose `default_` flag is set. */
  function DefaultCount(rows: seq<Account>): (n: nat)
    ensures n <= |rows|
    ensures n == 0 <==> forall i :: 0 <= i < |rows| ==> !rows[i].isDefault
  {
    if rows == [] then 0
    else (if rows[0].isDefault then 1 else 0) + DefaultCount(rows[1..])
  }

  /** The row keyed `id` is present and is the one and only default row. */
  predicate SoleDefault(rows: seq<Account>, id: int)
  {
    HasId(rows, id) && forall i :: 0 <= i < |rows| ==> (rows[i].isDefault <==> rows[i].id == id)
  }

  /** `INSERT ... ON CONFLICT IGNORE`: a row whose key is already present is dropped. */
  function AfterInsert(rows: seq<Account>, a: Account): (r: seq<Account>)
    ensures |r| == if HasId(rows, a.id) then |rows| else |rows| + 1
    ensures r[..|rows|] == rows
    ensures !HasId(rows, a.id) ==> r[|rows|] == a
    ensures HasId(r, a.id)
    ensures UniqueIds(rows) ==> UniqueIds(r)
  {
    if HasId(rows, a.id) then rows else rows + [a]
  }

  /** `UPDATE account set default_ = 0 where default_ = 1`. */
  function AfterRemoveDefault(rows: seq<Account>): (r: seq<Account>)
    ensures |r| == |rows|
    ensures forall i :: 0 <= i < |rows| ==> r[i] == Unflagged(rows[i])
  {
    if rows == [] then [] else [Unflagged(rows[0])] + AfterRemoveDefault(rows[1..])
  }

  /** `UPDATE account set default_ = 1 where id = :accountId`. */
  function AfterSetDefault(rows: seq<Account>, accountId: int): (r: seq<Account>)
    ensures SameExceptFlags(r, rows)
    ensures forall i :: 0 <= i < |rows| ==>
      r[i].isDefault == (rows[i].isDefault || rows[i].id == accountId)
  {
    if rows == [] then []
    else
      var head := if rows[0].id == accountId then rows[0].(isDefault := true) else rows[0];
      [head] + AfterSetDefault(rows[1..], accountId)
  }

  /** `@Delete`: removes the row whose primary key is `accountId`. */
  function AfterDelete(rows: seq<Account>, accountId: int): (r: seq<Account>)
    ensures |r| <= |rows|
    ensures !HasId(r, accountId)
    ensures forall x :: x in r <==> x in rows && x.id != accountId
    ensures !HasId(rows, accountId) ==> r == rows
  {
    if rows == [] then []
    else if rows[0].id == accountId then AfterDelete(rows[1..], accountId)
    else [rows[0]] + AfterDelete(rows[1..], accountId)
  }

  /** The data-access object: the table and its four mutating statements. */
  class AccountDao {
    var rows: seq<Account>

    ghost predicate Valid()
      reads this
    {
      UniqueIds(rows)
    }

    /** Room creates the `account` table empty. */
    constructor ()
      ensures Valid() && rows == []
    {
      rows := [];
    }

    method Insert(account: Account)
      requires Valid()
      modifies this
      ensures Valid()
      ensures rows == AfterInsert(old(rows), account)
    {
      rows := AfterInsert(rows, account);
    }

    method RemoveDefault()
      requires Valid()
      modifies this
      ensures Valid()
      ensures rows == AfterRemoveDefault(old(rows))
      ensures DefaultCount(rows) == 0
    {
      rows := AfterRemoveDefault(rows);
      assert SameExceptFlags(rows, old(rows));
    }

    method SetDefault(accountId: int)
      requires Valid()
      modifies this
      ensures Valid()
      ensures rows == AfterSetDefault(old(rows), accountId)
    {
      rows := AfterSetDefault(rows, accountId);
    }

    method Delete(account: Account)
      requires Valid()
      modifies this
      ensures Valid()
      ensures rows == AfterDelete(old(rows), account.id)
    {
      rows := AfterDelete(rows, account.id);
      AfterDeleteKeepsIdsUnique(old(rows), account.id);
    }
  }

  /** A subsequence by filtering keeps the keys apart. */
  lemma {:induction false} AfterDeleteKeepsIdsUnique(rows: seq<Account>, accountId: int)
    requires UniqueIds(rows)
    ensures UniqueIds(AfterDelete(rows, accountId))
  {
    if rows != [] {
      var tail := AfterDelete(rows[1..], accountId);
      AfterDeleteKeepsIdsUnique(rows[1..], accountId);
      if rows[0].id != accountId {
        forall j | 0 <= j < |tail| ensures tail[j].id != rows[0].id {
          assert tail[j] in rows[1..];
        }
      }
    }
  }

  /** Forwards every call to the data-access object. */
  class AccountRepository {
    const accountDao: AccountDao

    constructor (accountDao: AccountDao)
      ensures this.accountDao == accountDao
    {
      this.accountDao := accountDao;
    }

    method Insert(account: Account)
      requires accountDao.Valid()
      modifies accountDao
      ensures accountDao.Valid()
      ensures accountDao.rows == AfterInsert(old(accountDao.rows), account)
    {
      accountDao.Insert(account);
    }

    method RemoveDefault()
      requires accountDao.Valid()
      modifies accountDao
      ensures accountDao.Valid()
      ensures accountDao.rows == AfterRemoveDefault(old(accountDao.rows))
    {
      accountDao.RemoveDefault();
    }

    method SetDefault(accountId: int)
      requires accountDao.Valid()
      modifies accountDao
      ensures accountDao.Valid()
      ensures accountDao.rows == AfterSetDefault(old(accountDao.rows), accountId)
    {
      accountDao.SetDefault(accountId);
    }

    method Delete(account: Account)
      requires accountDao.Valid()
      modifies accountDao
      ensures accountDao.Valid()
      ensures accountDao.rows == AfterDelete(old(accountDao.rows), account.id)
    {
      accountDao.Delete(account);
    }
  }

  /**
   * Forwards every call to the repository. Each call is launched as its own
   * coroutine in the application; here the calls run one after another, in
   * the order they are issued.
   */
  class AccountViewModel {
    const repository: AccountRepository

    constructor (repository: AccountRepository)
      ensures this.repository == repository
    {
      this.repository := repository;
    }

    method Insert(account: Account)
      requires repository.accountDao.Valid()
      modifies repository.accountDao
      ensures repository.accountDao.Valid()
      ensures repository.accountDao.rows == AfterInsert(old(repository.accountDao.rows), account)
    {
      repository.Insert(account);
    }

    method RemoveDefault()
      requires repository.accountDao.Valid()
      modifies repository.accountDao
      ensures repository.accountDao.Valid()
      ensures repository.accountDao.rows == AfterRemoveDefault(old(repository.accountDao.rows))
    {
      repository.RemoveDefault();
    }

    method SetDefault(accountId: int)
      requires repository.accountDao.Valid()
      modifies repository.accountDao
      ensures repository.accountDao.Valid()
      ensures repository.accountDao.rows == AfterSetDefault(old(repository.accountDao.rows), accountId)
    {
      repository.SetDefault(accountId);
    }

    method Delete(account: Account)
      requires repository.accountDao.Valid()
      modifies repository.accountDao
      ensures repository.accountDao.Valid()
      ensures repository.accountDao.rows == AfterDelete(old(repository.accountDao.rows), account.id)
    {
      repository.Delete(account);
    }
  }
}
