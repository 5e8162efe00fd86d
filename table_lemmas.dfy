/**
 * What the four mutating statements of the account table guarantee, alone and in
 * sequence: keys stay unique, only the `default_` column is ever updated in
 * place, and "at most one default" survives `removeDefault` followed by
 * `setDefault`, but not `setDefault` alone.
 */
module TableLemmas {
  import opened AppDb

  /** One call on the data-access object. */
  datatype Op =
    | Insert(account: Account)
    | RemoveDefault
    | SetDefault(accountId: int)
    | Delete(account: Account)

  function Apply(rows: seq<Account>, op: Op): seq<Account>
  {
    match op
    case Insert(a) => AfterInsert(rows, a)
    case RemoveDefault => AfterRemoveDefault(rows)
    case SetDefault(id) => AfterSetDefault(rows, id)
    case Delete(a) => AfterDelete(rows, a.id)
  }

  /** The calls of `ops`, applied in order. */
  function ApplyAll(rows: seq<Account>, ops: seq<Op>): seq<Account>
    decreases ops
  {
    if ops == [] then rows else ApplyAll(Apply(rows, ops[0]), ops[1..])
  }

  lemma SameExceptFlagsKeepsIdsUnique(a: seq<Account>, b: seq<Account>)
    requires SameExceptFlags(a, b) && UniqueIds(b)
    ensures UniqueIds(a)
  {
    forall i, j | 0 <= i < j < |a| ensures a[i].id != a[j].id {
      assert Unflagged(a[i]).id == b[i].id && Unflagged(a[j]).id == b[j].id;
    }
  }

  /** Every call keeps the primary key unique. */
  lemma ApplyKeepsIdsUnique(rows: seq<Account>, op: Op)
    requires UniqueIds(rows)
    ensures UniqueIds(Apply(rows, op))
  {
    match op
    case Insert(a) =>
    case RemoveDefault => SameExceptFlagsKeepsIdsUnique(AfterRemoveDefault(rows), rows);
    case SetDefault(id) => SameExceptFlagsKeepsIdsUnique(AfterSetDefault(rows, id), rows);
    case Delete(a) => AfterDeleteKeepsIdsUnique(rows, a.id);
  }

  /** Keys stay unique after any sequence of calls. */
  lemma {:induction false} IdsStayUnique(rows: seq<Account>, ops: seq<Op>)
    requires UniqueIds(rows)
    ensures UniqueIds(ApplyAll(rows, ops))
    decreases ops
  {
    if ops != [] {
      ApplyKeepsIdsUnique(rows, ops[0]);
      IdsStayUnique(Apply(rows, ops[0]), ops[1..]);
    }
  }

  /**
   * Only `default_` is ever updated in place: a row present after a call
   * whose key was present before carries the same instance, name, avatar and
   * token as before.
   */
  lemma OnlyDefaultFlagChanges(rows: seq<Account>, op: Op)
    requires UniqueIds(rows)
    ensures var r := Apply(rows, op);
      forall i, j :: 0 <= i < |r| && 0 <= j < |rows| && r[i].id == rows[j].id ==>
        Unflagged(r[i]) == Unflagged(rows[j])
  {
    var r := Apply(rows, op);
    forall i, j | 0 <= i < |r| && 0 <= j < |rows| && r[i].id == rows[j].id
      ensures Unflagged(r[i]) == Unflagged(rows[j])
    {
      match op
      case Insert(a) =>
        if i < |rows| {
          assert r[i] == r[..|rows|][i];
        } else {
          assert false;
        }
      case RemoveDefault =>
        assert Unflagged(r[i]).id == rows[i].id;
      case SetDefault(id) =>
        assert Unflagged(r[i]).id == rows[i].id;
      case Delete(a) =>
        assert r[i] in rows;
    }
  }

  /** `insert` and `delete` change the row count by at most one; the updates keep it. */
  lemma RowCount(rows: seq<Account>, op: Op)
    requires UniqueIds(rows)
    ensures op.Insert? ==> |rows| <= |Apply(rows, op)| <= |rows| + 1
    ensures op.Delete? ==> |rows| - 1 <= |Apply(rows, op)| <= |rows|
    ensures op.RemoveDefault? || op.SetDefault? ==> |Apply(rows, op)| == |rows|
  {
    if op.Delete? && HasId(rows, op.account.id) {
      var k :| 0 <= k < |rows| && rows[k].id == op.account.id;
      DeleteAt(rows, k);
    }
  }

  /** Deleting the key of row `k` drops exactly that row and keeps the others in order. */
  lemma {:induction false} DeleteAt(rows: seq<Account>, k: nat)
    requires UniqueIds(rows) && k < |rows|
    ensures AfterDelete(rows, rows[k].id) == rows[..k] + rows[k + 1..]
  {
    var tail := rows[1..];
    TailKeepsIdsUnique(rows);
    if k == 0 {
      DeleteHeadKey(rows);
    } else {
      assert tail[k - 1] == rows[k];
      DeleteAt(tail, k - 1);
      DeleteStep(rows, k);
    }
  }

  /** Dropping the first row keeps the keys apart. */
  lemma TailKeepsIdsUnique(rows: seq<Account>)
    requires UniqueIds(rows) && rows != []
    ensures UniqueIds(rows[1..])
  {
    var tail := rows[1..];
    forall i, j | 0 <= i < j < |tail| ensures tail[i].id != tail[j].id {
      assert tail[i] == rows[i + 1] && tail[j] == rows[j + 1];
    }
  }

  /** Deleting the first row's key drops just that row. */
  lemma DeleteHeadKey(rows: seq<Account>)
    requires UniqueIds(rows) && rows != []
    ensures AfterDelete(rows, rows[0].id) == rows[1..]
  {
    var tail := rows[1..];
    assert !HasId(tail, rows[0].id) by {
      forall i | 0 <= i < |tail| ensures tail[i].id != rows[0].id {
        assert tail[i] == rows[i + 1];
      }
    }
  }

  /** Deleting a later row's key keeps the first row and deletes from the rest. */
  lemma DeleteStep(rows: seq<Account>, k: nat)
    requires UniqueIds(rows) && 0 < k < |rows|
    requires AfterDelete(rows[1..], rows[k].id) == rows[1..][..k - 1] + rows[1..][k..]
    ensures AfterDelete(rows, rows[k].id) == rows[..k] + rows[k + 1..]
  {
    assert rows[0].id != rows[k].id;
    SpliceAfterHead(rows, k);
  }

  /** Dropping element `k` of `s` is keeping its head and dropping element `k - 1` of its tail. */
  lemma SpliceAfterHead<T>(s: seq<T>, k: nat)
    requires 0 < k < |s|
    ensures [s[0]] + (s[1..][..k - 1] + s[1..][k..]) == s[..k] + s[k + 1..]
  {
    assert s[..k] == [s[0]] + s[1..][..k - 1];
    assert s[k + 1..] == s[1..][k..];
  }

  /** A row whose key is already present keeps all its columns on `insert`. */
  lemma InsertOfPresentKeyKeepsRow(rows: seq<Account>, a: Account, k: nat)
    requires k < |rows| && rows[k].id == a.id
    ensures AfterInsert(rows, a) == rows
  {
  }

  /** After `removeDefault` no row is default; calling it again changes nothing. */
  lemma RemoveDefaultClearsAll(rows: seq<Account>)
    ensures DefaultCount(AfterRemoveDefault(rows)) == 0
    ensures SameExceptFlags(AfterRemoveDefault(rows), rows)
    ensures AfterRemoveDefault(AfterRemoveDefault(rows)) == AfterRemoveDefault(rows)
  {
  }

  /** `setDefault` of an absent key changes nothing. */
  lemma {:induction false} SetDefaultOfAbsentKey(rows: seq<Account>, accountId: int)
    requires !HasId(rows, accountId)
    ensures AfterSetDefault(rows, accountId) == rows
  {
    if rows != [] {
      assert !HasId(rows[1..], accountId) by {
        forall i | 0 <= i < |rows[1..]| ensures rows[1..][i].id != accountId {
          assert rows[1..][i] == rows[i + 1];
        }
      }
      SetDefaultOfAbsentKey(rows[1..], accountId);
    }
  }

  /** With unique keys, a sole default row is counted once. */
  lemma {:induction false} SoleDefaultCountsOne(rows: seq<Account>, id: int)
    requires UniqueIds(rows) && SoleDefault(rows, id)
    ensures DefaultCount(rows) == 1
  {
    var tail := rows[1..];
    assert forall i :: 0 <= i < |tail| ==> tail[i] == rows[i + 1];
    if rows[0].id == id {
      assert forall i :: 0 <= i < |tail| ==> !tail[i].isDefault;
    } else {
      var j :| 0 <= j < |rows| && rows[j].id == id;
      assert tail[j - 1].id == id;
      SoleDefaultCountsOne(tail, id);
    }
  }

  /** With unique keys, one default row counted means that row is the sole default. */
  lemma {:induction false} OneDefaultIsSole(rows: seq<Account>, k: nat)
    requires k < |rows| && rows[k].isDefault && DefaultCount(rows) == 1
    ensures forall i :: 0 <= i < |rows| && rows[i].isDefault ==> i == k
  {
    var tail := rows[1..];
    assert forall i :: 0 <= i < |tail| ==> tail[i] == rows[i + 1];
    if k == 0 {
      assert DefaultCount(tail) == 0;
    } else {
      OneDefaultIsSole(tail, k - 1);
    }
  }

  /** `setDefault` on a table with no default leaves exactly one default: that key. */
  lemma SetDefaultOnClearedTable(rows: seq<Account>, accountId: int)
    requires UniqueIds(rows) && HasId(rows, accountId) && DefaultCount(rows) == 0
    ensures SoleDefault(AfterSetDefault(rows, accountId), accountId)
    ensures DefaultCount(AfterSetDefault(rows, accountId)) == 1
  {
    var r := AfterSetDefault(rows, accountId);
    SameExceptFlagsKeepsIdsUnique(r, rows);
    var j :| 0 <= j < |rows| && rows[j].id == accountId;
    assert Unflagged(r[j]).id == accountId;
    forall i | 0 <= i < |r| ensures r[i].id == rows[i].id {
      assert Unflagged(r[i]).id == rows[i].id;
    }
    SoleDefaultCountsOne(r, accountId);
  }

  /**
   * `removeDefault` then `setDefault(id)`: with `id` present exactly one row
   * is default, the one keyed `id`; with `id` absent no row is default.
   */
  lemma RemoveThenSetDefault(rows: seq<Account>, accountId: int)
    requires UniqueIds(rows)
    ensures var r := AfterSetDefault(AfterRemoveDefault(rows), accountId);
      (HasId(rows, accountId) ==> SoleDefault(r, accountId) && DefaultCount(r) == 1) &&
      (!HasId(rows, accountId) ==> DefaultCount(r) == 0)
  {
    var cleared := AfterRemoveDefault(rows);
    SameExceptFlagsKeepsIdsUnique(cleared, rows);
    if HasId(rows, accountId) {
      var j :| 0 <= j < |rows| && rows[j].id == accountId;
      assert cleared[j].id == accountId;
      SetDefaultOnClearedTable(cleared, accountId);
    } else {
      assert !HasId(cleared, accountId) by {
        forall i | 0 <= i < |cleared| ensures cleared[i].id != accountId {
          assert cleared[i].id == rows[i].id;
        }
      }
      SetDefaultOfAbsentKey(cleared, accountId);
    }
  }

  /** `setDefault` alone does not clear an existing default: two defaults can result. */
  lemma SetDefaultAloneCanMakeTwoDefaults()
    ensures exists rows: seq<Account>, accountId: int ::
      UniqueIds(rows) && DefaultCount(rows) == 1 && HasId(rows, accountId) &&
      DefaultCount(AfterSetDefault(rows, accountId)) == 2
  {
    var a := Account(1, true, "a.example", "alice", None, "t1");
    var b := Account(2, false, "b.example", "bob", None, "t2");
    var rows := [a, b];
    assert rows[1].id == 2;
    var r := AfterSetDefault(rows, 2);
    assert r[0].isDefault && r[1].isDefault;
    assert r[1..][1..] == [];
  }
}
