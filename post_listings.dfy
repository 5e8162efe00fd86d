/**
 * The two account actions of the navigation drawer's "add account" mode:
 * "Switch to" an account and "Sign Out" of the current one. Each is a
 * sequence of account-table calls issued in order; the API client's
 * `changeLemmyInstance` is modelled as the assignment of `activeInstance`.
 */
module PostListings {
  import opened AppDb
  import opened TableLemmas

  /**
   * `MutableList.remove(element)`: drops the first element equal to `x`
   * (equal in every column), or nothing when there is none.
   */
  function RemoveFirst(list: seq<Account>, x: Account): (r: seq<Account>)
    ensures x in list ==> |r| == |list| - 1
    ensures x !in list ==> r == list
    ensures multiset(r) == multiset(list) - multiset{x}
  {
    if list == [] then []
    else if list[0] == x then
      assert list == [list[0]] + list[1..];
      list[1..]
    else
      assert list == [list[0]] + list[1..];
      [list[0]] + RemoveFirst(list[1..], x)
  }

  /** The element removed is the first occurrence; the others keep their order. */
  lemma {:induction false} RemoveFirstAt(list: seq<Account>, x: Account, k: nat)
    requires k < |list| && list[k] == x && x !in list[..k]
    ensures RemoveFirst(list, x) == list[..k] + list[k + 1..]
  {
    if k > 0 {
      var tail := list[1..];
      assert list[0] == list[..k][0];
      assert tail[..k - 1] == list[1..k];
      RemoveFirstAt(tail, x, k - 1);
      assert list[..k] == [list[0]] + tail[..k - 1];
      assert list[k + 1..] == tail[k..];
    }
  }

  /** With unique keys, removing the account from the list is filtering out its key. */
  lemma {:induction false} RemoveFirstIsDelete(list: seq<Account>, x: Account)
    requires UniqueIds(list) && x in list
    ensures RemoveFirst(list, x) == AfterDelete(list, x.id)
  {
    var tail := list[1..];
    assert forall i :: 0 <= i < |tail| ==> tail[i] == list[i + 1];
    if list[0] == x {
      assert !HasId(tail, x.id);
    } else {
      assert x in tail;
      var i :| 0 <= i < |tail| && tail[i] == x;
      assert list[0].id != x.id;
      RemoveFirstIsDelete(tail, x);
    }
  }

  /** Deleting the snapshot's only default row leaves no default. */
  lemma DeleteSoleDefault(accounts: seq<Account>, k: nat)
    requires UniqueIds(accounts) && k < |accounts|
    requires accounts[k].isDefault && DefaultCount(accounts) == 1
    ensures DefaultCount(AfterDelete(accounts, accounts[k].id)) == 0
  {
    var deleted := AfterDelete(accounts, accounts[k].id);
    OneDefaultIsSole(accounts, k);
    forall i | 0 <= i < |deleted| ensures !deleted[i].isDefault {
      assert deleted[i] in accounts;
    }
  }

  /** The first row left after deleting row `k` is the snapshot's first, or its second when `k` is 0. */
  lemma FirstRemaining(accounts: seq<Account>, k: nat)
    requires UniqueIds(accounts) && k < |accounts| && |accounts| > 1
    ensures AfterDelete(accounts, accounts[k].id) != []
    ensures AfterDelete(accounts, accounts[k].id)[0]
         == if accounts[0].id == accounts[k].id then accounts[1] else accounts[0]
  {
    DeleteAt(accounts, k);
    if k != 0 {
      assert accounts[0].id != accounts[k].id;
    }
  }

  /**
   * Signing out the current account, when it is the snapshot's only default:
   * the copied list minus the account is the table after the delete, that
   * table has no default, and, if accounts remain, marking the first of them
   * leaves it the only default. The first remaining account is the first of
   * the snapshot, or the second when the first is the one signed out.
   */
  lemma SignOutOutcome(accounts: seq<Account>, current: Account)
    requires UniqueIds(accounts) && current in accounts
    requires current.isDefault && DefaultCount(accounts) == 1
    ensures var rest := RemoveFirst(accounts, current);
      var deleted := AfterDelete(accounts, current.id);
      && rest == deleted
      && DefaultCount(deleted) == 0
      && (rest == [] <==> |accounts| == 1)
      && (rest != [] ==>
            && rest[0] == (if accounts[0].id == current.id then accounts[1] else accounts[0])
            && SoleDefault(AfterSetDefault(deleted, rest[0].id), rest[0].id)
            && DefaultCount(AfterSetDefault(deleted, rest[0].id)) == 1)
  {
    var k :| 0 <= k < |accounts| && accounts[k] == current;
    var deleted := AfterDelete(accounts, current.id);
    RemoveFirstIsDelete(accounts, current);
    DeleteSoleDefault(accounts, k);
    AfterDeleteKeepsIdsUnique(accounts, current.id);
    if |accounts| > 1 {
      FirstRemaining(accounts, k);
      assert deleted[0] in deleted;
      SetDefaultOnClearedTable(deleted, deleted[0].id);
    }
  }

  /** The drawer's account actions, over the shared view model and API client. */
  class AccountDrawer {
    const accountViewModel: AccountViewModel
    /** The instance the API client talks to. */
    var activeInstance: string

    constructor (accountViewModel: AccountViewModel, activeInstance: string)
      ensures this.accountViewModel == accountViewModel
      ensures this.activeInstance == activeInstance
    {
      this.accountViewModel := accountViewModel;
      this.activeInstance := activeInstance;
    }

    /**
     * "Switch to": `removeDefault`, `setDefault(it.id)`, then point the API
     * at `it.instance`. `it` comes from an observed snapshot, so its key may
     * already be gone from the table.
     */
    method SwitchTo(it: Account)
      requires accountViewModel.repository.accountDao.Valid()
      modifies this, accountViewModel.repository.accountDao
      ensures accountViewModel.repository.accountDao.Valid()
      ensures activeInstance == it.instance
      ensures SameExceptFlags(accountViewModel.repository.accountDao.rows,
                              old(accountViewModel.repository.accountDao.rows))
      ensures HasId(old(accountViewModel.repository.accountDao.rows), it.id) ==>
        SoleDefault(accountViewModel.repository.accountDao.rows, it.id) &&
        DefaultCount(accountViewModel.repository.accountDao.rows) == 1
      ensures !HasId(old(accountViewModel.repository.accountDao.rows), it.id) ==>
        DefaultCount(accountViewModel.repository.accountDao.rows) == 0
    {
      ghost var before := accountViewModel.repository.accountDao.rows;
      accountViewModel.RemoveDefault();
      ghost var cleared := accountViewModel.repository.accountDao.rows;
      accountViewModel.SetDefault(it.id);
      activeInstance := it.instance;
      RemoveThenSetDefault(before, it.id);
      assert SameExceptFlags(cleared, before);
    }

    /**
     * "Sign Out": delete the current account, copy the snapshot observed at
     * click time, remove the account from the copy, and make the first
     * account left in it the default. The current account is the one the
     * drawer found as default in that snapshot.
     */
    method SignOut(currentAccount: Account)
      requires accountViewModel.repository.accountDao.Valid()
      requires currentAccount in accountViewModel.repository.accountDao.rows
      requires currentAccount.isDefault
      modifies accountViewModel.repository.accountDao
      ensures accountViewModel.repository.accountDao.Valid()
      ensures !HasId(accountViewModel.repository.accountDao.rows, currentAccount.id)
      ensures |accountViewModel.repository.accountDao.rows|
           == |old(accountViewModel.repository.accountDao.rows)| - 1
      ensures SameExceptFlags(accountViewModel.repository.accountDao.rows,
                              AfterDelete(old(accountViewModel.repository.accountDao.rows), currentAccount.id))
      ensures var deleted := AfterDelete(old(accountViewModel.repository.accountDao.rows), currentAccount.id);
        accountViewModel.repository.accountDao.rows
          == if deleted == [] then deleted else AfterSetDefault(deleted, deleted[0].id)
      ensures var accounts := old(accountViewModel.repository.accountDao.rows);
        var rows := accountViewModel.repository.accountDao.rows;
        DefaultCount(accounts) == 1 ==>
          && (|accounts| == 1 ==> rows == [])
          && (|accounts| > 1 ==>
                var next := if accounts[0].id == currentAccount.id then accounts[1] else accounts[0];
                SoleDefault(rows, next.id) && DefaultCount(rows) == 1)
    {
      var accounts := accountViewModel.repository.accountDao.rows;
      ghost var k :| 0 <= k < |accounts| && accounts[k] == currentAccount;
      DeleteAt(accounts, k);
      accountViewModel.Delete(currentAccount);
      var updatedList := accounts;
      updatedList := RemoveFirst(updatedList, currentAccount);
      RemoveFirstIsDelete(accounts, currentAccount);
      if |updatedList| != 0 {
        accountViewModel.SetDefault(updatedList[0].id);
      }
      ghost var singleDefault := DefaultCount(accounts) == 1;
      if singleDefault {
        SignOutOutcome(accounts, currentAccount);
      }
    }
  }
}
