/**
 * The in-memory tables that stand for the sqlite database: `accounts`, `rights` and the
 * `account_right` join table, as raw rows (integers where sqlite stores integers).
 * A `SELECT ... WHERE` is a `Filter`, a `DELETE ... WHERE` a `Filter` on the negation.
 */
module Store {
  import opened Wrappers

  /** The columns of an `accounts` row other than `active` and `is_admin`. */
  datatype Profile = Profile(
    id: int,
    email: string,
    name: string,
    partnerId: int,
    password: string,             // a password hash, opaque here
    accessToken: string,
    passwordlostToken: string,
    activationToken: string,
    avatarUrl: Option<string>,    // nullable column
    postalAddress: string,
    gsm: string,
    description: string,
    firstConnexion: int)

  /** One raw `accounts` row: `active` and `is_admin` are the stored integers. */
  datatype Account = Account(active: int, isAdmin: int, profile: Profile)

  /** The columns of a `rights` row other than `is_default`. */
  datatype RightFields = RightFields(id: int, name: string, description: string)

  /** One raw `rights` row. */
  datatype Right = Right(isDefault: int, fields: RightFields)

  /** One `account_right` row. */
  datatype AccountRight = AccountRight(accountId: int, rightId: int)

  /** The three tables, as one value (what an abstract store transition takes and gives back). */
  datatype Tables = Tables(accounts: seq<Account>, rights: seq<Right>, accountRights: seq<AccountRight>)

  /** The database handle every service receives; each request is applied to it in sequence. */
  class Db {
    var accounts: seq<Account>
    var rights: seq<Right>
    var accountRights: seq<AccountRight>

    constructor (tables: Tables)
      ensures accounts == tables.accounts && rights == tables.rights
      ensures accountRights == tables.accountRights
    {
      accounts, rights, accountRights := tables.accounts, tables.rights, tables.accountRights;
    }

    function Snapshot(): (t: Tables)
      reads this
      ensures t.accounts == accounts && t.rights == rights && t.accountRights == accountRights
    {
      Tables(accounts, rights, accountRights)
    }

    /** Replaces the three tables by those a store transition returned. */
    method Load(t: Tables)
      modifies this
      ensures Snapshot() == t
    {
      accounts, rights, accountRights := t.accounts, t.rights, t.accountRights;
    }
  }

  /** The rows satisfying `p`, in table order. */
  function Filter<T(!new)>(s: seq<T>, p: T -> bool): (r: seq<T>)
    ensures |r| <= |s|
  {
    if s == [] then []
    else if p(s[0]) then [s[0]] + Filter(s[1..], p)
    else Filter(s[1..], p)
  }

  /** A row is selected exactly when it is in the table and satisfies the condition. */
  lemma {:induction false} FilterMembers<T(!new)>(s: seq<T>, p: T -> bool)
    ensures forall x :: x in Filter(s, p) <==> x in s && p(x)
  {
    if s != [] {
      FilterMembers(s[1..], p);
      assert forall x :: x in s <==> x == s[0] || x in s[1..];
    }
  }

  /** Index `i` is the one and only position of `s` where `p` holds. */
  ghost predicate OnlyAt<T(!new)>(s: seq<T>, p: T -> bool, i: int) {
    0 <= i < |s| && p(s[i]) && forall j :: 0 <= j < |s| && j != i ==> !p(s[j])
  }

  lemma {:induction false} FilterOnlyAt<T(!new)>(s: seq<T>, p: T -> bool, i: int)
    requires OnlyAt(s, p, i)
    ensures Filter(s, p) == [s[i]]
  {
    if i == 0 {
      FilterNone(s[1..], p);
    } else {
      assert OnlyAt(s[1..], p, i - 1);
      FilterOnlyAt(s[1..], p, i - 1);
    }
  }

  lemma {:induction false} FilterNone<T(!new)>(s: seq<T>, p: T -> bool)
    requires forall j :: 0 <= j < |s| ==> !p(s[j])
    ensures Filter(s, p) == []
  {
    if s != [] { FilterNone(s[1..], p); }
  }

  /** A filter returns exactly one row precisely when exactly one position satisfies the condition. */
  lemma {:induction false} FilterSingleton<T(!new)>(s: seq<T>, p: T -> bool)
    ensures |Filter(s, p)| == 1 <==> exists i :: OnlyAt(s, p, i)
    ensures forall i :: OnlyAt(s, p, i) ==> Filter(s, p) == [s[i]]
  {
    forall i | OnlyAt(s, p, i) ensures Filter(s, p) == [s[i]] { FilterOnlyAt(s, p, i); }
    if |Filter(s, p)| == 1 {
      var i := SingletonWitness(s, p);
    }
  }

  lemma {:induction false} SingletonWitness<T(!new)>(s: seq<T>, p: T -> bool) returns (i: int)
    requires |Filter(s, p)| == 1
    ensures OnlyAt(s, p, i)
  {
    if p(s[0]) {
      i := 0;
      assert |Filter(s[1..], p)| == 0;
      FilterMembers(s[1..], p);
      forall j | 0 < j < |s| ensures !p(s[j]) {
        assert s[j] == s[1..][j - 1];
      }
    } else {
      var k := SingletonWitness(s[1..], p);
      i := k + 1;
    }
  }

  /** A filter returns two rows or more precisely when two distinct positions satisfy the condition. */
  lemma FilterAtLeastTwo<T(!new)>(s: seq<T>, p: T -> bool)
    ensures |Filter(s, p)| >= 2 <==> exists i, j :: 0 <= i < j < |s| && p(s[i]) && p(s[j])
  {
    if |Filter(s, p)| >= 2 {
      var i, j := TwoSelected(s, p);
    }
    if exists i, j :: 0 <= i < j < |s| && p(s[i]) && p(s[j]) {
      var i, j :| 0 <= i < j < |s| && p(s[i]) && p(s[j]);
      SelectedTwo(s, p, i, j);
    }
  }

  lemma {:induction false} TwoSelected<T(!new)>(s: seq<T>, p: T -> bool) returns (i: int, j: int)
    requires |Filter(s, p)| >= 2
    ensures 0 <= i < j < |s| && p(s[i]) && p(s[j])
  {
    if p(s[0]) {
      var x := Filter(s[1..], p)[0];
      FilterMembers(s[1..], p);
      assert x in Filter(s[1..], p);
      var k :| 0 <= k < |s[1..]| && s[1..][k] == x;
      i, j := 0, k + 1;
    } else {
      var i', j' := TwoSelected(s[1..], p);
      i, j := i' + 1, j' + 1;
    }
  }

  lemma SelectedTwo<T(!new)>(s: seq<T>, p: T -> bool, i: int, j: int)
    requires 0 <= i < j < |s| && p(s[i]) && p(s[j])
    ensures |Filter(s, p)| >= 2
  {
    var front, back := s[..j], s[j..];
    assert s == front + back;
    FilterConcat(front, back, p);
    FilterMembers(front, p);
    FilterMembers(back, p);
    assert front[i] == s[i] && back[0] == s[j];
    assert |Filter(front, p)| >= 1 && |Filter(back, p)| >= 1;
  }

  /** Filtering twice with the same condition is filtering once. */
  lemma {:induction false} FilterIdempotent<T(!new)>(s: seq<T>, p: T -> bool)
    ensures Filter(Filter(s, p), p) == Filter(s, p)
  {
    if s != [] {
      FilterIdempotent(s[1..], p);
      if p(s[0]) {
        assert ([s[0]] + Filter(s[1..], p))[1..] == Filter(s[1..], p);
      }
    }
  }

  /** Filtering a concatenation filters each part. */
  lemma {:induction false} FilterConcat<T(!new)>(s: seq<T>, t: seq<T>, p: T -> bool)
    ensures Filter(s + t, p) == Filter(s, p) + Filter(t, p)
  {
    if s == [] {
      assert s + t == t;
    } else {
      assert (s + t)[1..] == s[1..] + t;
      FilterConcat(s[1..], t, p);
    }
  }

  /** A filter whose condition every row meets keeps the table as it is. */
  lemma {:induction false} FilterAll<T(!new)>(s: seq<T>, p: T -> bool)
    requires forall k :: 0 <= k < |s| ==> p(s[k])
    ensures Filter(s, p) == s
  {
    if s != [] {
      FilterAll(s[1..], p);
      assert [s[0]] + s[1..] == s;
    }
  }

  /** Filtering by a weaker condition first changes nothing about a filter by a stronger one. */
  lemma {:induction false} FilterNarrower<T(!new)>(s: seq<T>, p: T -> bool, q: T -> bool)
    requires forall x :: q(x) ==> p(x)
    ensures Filter(Filter(s, p), q) == Filter(s, q)
  {
    if s != [] {
      FilterNarrower(s[1..], p, q);
      if p(s[0]) {
        assert ([s[0]] + Filter(s[1..], p))[1..] == Filter(s[1..], p);
      }
    }
  }
}
