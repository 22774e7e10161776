/**
 * The rights services: the `rights` catalogue read a page at a time, the default rights,
 * the rights one account holds through the `account_right` join table, and the replacement
 * of an account's rights by the defaults. `ITEMS_PER_PAGE` is a parameter; the offset is
 * passed as the decimal text of the number the caller computed, because `parseInt` works on text.
 */
module RightsServices {
  import opened Wrappers
  import opened JsText
  import opened Store

  // ---------------------------------------------------------------------------
  // cleanRight

  /** A `rights` row after `cleanRight`: `is_default` as a boolean. */
  datatype CleanedRight = CleanedRight(isDefault: bool, fields: RightFields)

  /** `cleanRight(right)`: `is_default` becomes `is_default === 1`, every other column is kept. */
  function CleanRight(r: Right): CleanedRight {
    CleanedRight(r.isDefault == 1, r.fields)
  }

  /** Two rows clean to the same value exactly when they share their columns and agree on `is_default === 1`. */
  lemma CleanRightKernel(a: Right, b: Right)
    ensures CleanRight(a) == CleanRight(b) <==> a.fields == b.fields && (a.isDefault == 1 <==> b.isDefault == 1)
  {
  }

  /** The stored integer 2 counts as a default right for `getDefaultRights`, yet `cleanRight` calls it non-default. */
  lemma TruthyDefaultCleansToFalse(f: RightFields)
    ensures IsDefaultRow()(Right(2, f)) && !CleanRight(Right(2, f)).isDefault
  {
  }

  // ---------------------------------------------------------------------------
  // deleteAccountRights

  /** `WHERE account_id = $account_id` on `account_right`. */
  function ForAccount(accountId: int): AccountRight -> bool {
    (j: AccountRight) => j.accountId == accountId
  }

  function NotForAccount(accountId: int): AccountRight -> bool {
    (j: AccountRight) => j.accountId != accountId
  }

  /** The join table after `DELETE FROM account_right WHERE account_id = $account_id`. */
  function WithoutAccount(joins: seq<AccountRight>, accountId: int): seq<AccountRight> {
    Filter(joins, NotForAccount(accountId))
  }

  /** The delete removes every join row of the account and keeps every other row. */
  lemma WithoutAccountMembers(joins: seq<AccountRight>, accountId: int)
    ensures forall j :: j in WithoutAccount(joins, accountId) <==> j in joins && j.accountId != accountId
  {
    FilterMembers(joins, NotForAccount(accountId));
  }

  /** The rows of any other account keep their order and multiplicity. */
  lemma WithoutAccountKeepsOthers(joins: seq<AccountRight>, accountId: int, other: int)
    requires other != accountId
    ensures Filter(WithoutAccount(joins, accountId), ForAccount(other)) == Filter(joins, ForAccount(other))
  {
    FilterNarrower(joins, NotForAccount(accountId), ForAccount(other));
  }

  /** `deleteAccountRights(accountId)`; the store never fails here, so the answer is always true. */
  method DeleteAccountRights(db: Db, accountId: int) returns (ok: bool)
    modifies db`accountRights
    ensures ok
    ensures db.accountRights == WithoutAccount(old(db.accountRights), accountId)
  {
    db.accountRights := WithoutAccount(db.accountRights, accountId);
    ok := true;
  }

  // ---------------------------------------------------------------------------
  // getRights

  /** `isNaN(parseInt(start)) ? -1 : parseInt(start)`. */
  function StartOf(start: string): int {
    match ParseInt(start)
    case None => -1
    case Some(v) => v
  }

  /** The default argument `start = -1`, as text. */
  function AllRows(): string {
    IntToString(-1)
  }

  lemma AllRowsStart()
    ensures StartOf(AllRows()) == -1
  {
    ParseIntOfIntToString(-1);
  }

  /** `LIMIT l OFFSET s` with a non-negative offset. */
  function Window<T>(rows: seq<T>, s: nat, l: nat): (w: seq<T>)
    ensures |w| <= l
  {
    if s >= |rows| then [] else rows[s..if s + l <= |rows| then s + l else |rows|]
  }

  /** The window is the run of rows from offset `s`, stopping after `l` rows or at the end of the table. */
  lemma WindowMeans<T>(rows: seq<T>, s: nat, l: nat)
    ensures var w := Window(rows, s, l);
      && (forall k :: 0 <= k < |w| ==> s + k < |rows| && w[k] == rows[s + k])
      && (|w| == l || s + |w| >= |rows|)
  {
  }

  /** The rows the query returns: all of them for a negative or NaN start, else one window. */
  function Page(rows: seq<Right>, start: string, itemsPerPage: nat): seq<Right> {
    var s := StartOf(start);
    if s > -1 then Window(rows, s, itemsPerPage) else rows
  }

  /** `getRights(fn, start)`. Its `cleanRight` map is discarded, so the rows come back raw. */
  function GetRights(rows: seq<Right>, fn: Option<seq<Right> -> seq<Right>>, start: string, itemsPerPage: nat)
    : seq<Right>
  {
    var page := Page(rows, start, itemsPerPage);
    if |page| < 1 then []
    else if fn.Some? then fn.value(page)
    else page
  }

  /** A start that is NaN or negative returns the whole table, to which the callback is applied. */
  lemma GetRightsAll(rows: seq<Right>, fn: Option<seq<Right> -> seq<Right>>, start: string, itemsPerPage: nat)
    requires StartOf(start) < 0
    ensures fn.None? ==> GetRights(rows, fn, start, itemsPerPage) == rows
    ensures fn.Some? ==> GetRights(rows, fn, start, itemsPerPage) == if rows == [] then [] else fn.value(rows)
  {
  }

  /** Any other start returns at most `itemsPerPage` consecutive rows from that offset. */
  lemma GetRightsPage(rows: seq<Right>, start: string, itemsPerPage: nat, s: int)
    requires ParseInt(start) == Some(s) && s >= 0
    ensures var r := GetRights(rows, None, start, itemsPerPage);
      && |r| <= itemsPerPage
      && (forall k :: 0 <= k < |r| ==> s + k < |rows| && r[k] == rows[s + k])
      && (|r| == itemsPerPage || s + |r| >= |rows|)
  {
    WindowMeans(rows, s, itemsPerPage);
  }

  /** A filtering callback sees only the page: paging comes first, filtering second. */
  lemma FilterAfterPage(rows: seq<Right>, p: Right -> bool, start: string, itemsPerPage: nat)
    ensures GetRights(rows, Some((rs: seq<Right>) => Filter(rs, p)), start, itemsPerPage)
         == Filter(GetRights(rows, None, start, itemsPerPage), p)
  {
  }

  /** So the first page of default rights can be empty while the table holds a default right. */
  lemma DefaultPageCanBeEmpty(f: RightFields, g: RightFields)
    ensures GetDefaultRights([Right(0, f), Right(1, g)], IntToString(0), 1) == []
    ensures Filter([Right(0, f), Right(1, g)], IsDefaultRow()) == [Right(1, g)]
  {
    var rows := [Right(0, f), Right(1, g)];
    ParseIntOfIntToString(0);
    assert Window(rows, 0, 1) == [Right(0, f)];
    assert Filter([Right(0, f)], IsDefaultRow()) == [];
    assert Filter(rows[1..], IsDefaultRow()) == [Right(1, g)];
  }

  // ---------------------------------------------------------------------------
  // getDefaultRights and getAccountRights

  /** `right.is_default` taken as a JavaScript truth value. */
  function IsDefaultRow(): Right -> bool {
    (r: Right) => r.isDefault != 0
  }

  /** `getDefaultRights(start)`. */
  function GetDefaultRights(rows: seq<Right>, start: string, itemsPerPage: nat): seq<Right> {
    GetRights(rows, Some((rs: seq<Right>) => Filter(rs, IsDefaultRow())), start, itemsPerPage)
  }

  /** Every default right returned is a row of the table whose raw `is_default` is truthy. */
  lemma DefaultRightsSound(rows: seq<Right>, start: string, itemsPerPage: nat)
    ensures forall x :: x in GetDefaultRights(rows, start, itemsPerPage) ==> x in rows && x.isDefault != 0
  {
    var page := Page(rows, start, itemsPerPage);
    FilterMembers(page, IsDefaultRow());
    PageWithin(rows, start, itemsPerPage);
  }

  /** Without paging the default rights are exactly the truthy rows, in table order. */
  lemma DefaultRightsAll(rows: seq<Right>, start: string, itemsPerPage: nat)
    requires StartOf(start) < 0
    ensures GetDefaultRights(rows, start, itemsPerPage) == Filter(rows, IsDefaultRow())
  {
  }

  /** Every row of a page is a row of the table. */
  lemma PageWithin(rows: seq<Right>, start: string, itemsPerPage: nat)
    ensures forall x :: x in Page(rows, start, itemsPerPage) ==> x in rows
  {
    var s := StartOf(start);
    if s > -1 {
      var w := Window(rows, s, itemsPerPage);
      WindowMeans(rows, s, itemsPerPage);
      forall x | x in w ensures x in rows {
        var k :| 0 <= k < |w| && w[k] == x;
        assert rows[s + k] == x;
      }
    }
  }

  /** `right_id` of each join row, in order. */
  function RightIdsOf(links: seq<AccountRight>): (ids: seq<int>)
    ensures |ids| == |links|
  {
    seq(|links|, k requires 0 <= k < |links| => links[k].rightId)
  }

  /** `rightIds.includes(right.id)` */
  function IdIn(ids: seq<int>): Right -> bool {
    (r: Right) => r.fields.id in ids
  }

  /** `getAccountRights(accountId, start)`. */
  function GetAccountRights(joins: seq<AccountRight>, rows: seq<Right>, accountId: int, start: string,
                            itemsPerPage: nat): seq<Right>
  {
    var links := Filter(joins, ForAccount(accountId));
    if |links| < 1 then []
    else
      var ids := RightIdsOf(links);
      GetRights(rows, Some((rs: seq<Right>) => Filter(rs, IdIn(ids))), start, itemsPerPage)
  }

  /** A right is linked to the account when some join row of the account names its id. */
  ghost predicate Linked(joins: seq<AccountRight>, accountId: int, r: Right) {
    exists j :: j in joins && j.accountId == accountId && j.rightId == r.fields.id
  }

  lemma LinkedIds(joins: seq<AccountRight>, accountId: int, r: Right)
    ensures r.fields.id in RightIdsOf(Filter(joins, ForAccount(accountId))) <==> Linked(joins, accountId, r)
  {
    var links := Filter(joins, ForAccount(accountId));
    FilterMembers(joins, ForAccount(accountId));
    var ids := RightIdsOf(links);
    if r.fields.id in ids {
      var k :| 0 <= k < |ids| && ids[k] == r.fields.id;
      assert links[k] in links;
    }
    if Linked(joins, accountId, r) {
      var j :| j in joins && j.accountId == accountId && j.rightId == r.fields.id;
      assert j in links;
      var k :| 0 <= k < |links| && links[k] == j;
      assert ids[k] == r.fields.id;
    }
  }

  /** Only rights of the table linked to the account come back, and none at all without a join row. */
  lemma AccountRightsSound(joins: seq<AccountRight>, rows: seq<Right>, accountId: int, start: string,
                           itemsPerPage: nat)
    ensures (forall j :: j in joins ==> j.accountId != accountId) ==>
              GetAccountRights(joins, rows, accountId, start, itemsPerPage) == []
    ensures forall x :: x in GetAccountRights(joins, rows, accountId, start, itemsPerPage) ==>
              x in rows && Linked(joins, accountId, x)
  {
    var links := Filter(joins, ForAccount(accountId));
    FilterMembers(joins, ForAccount(accountId));
    if |links| >= 1 {
      assert links[0] in links;
      var ids := RightIdsOf(links);
      var page := Page(rows, start, itemsPerPage);
      FilterMembers(page, IdIn(ids));
      PageWithin(rows, start, itemsPerPage);
      forall x | x in GetAccountRights(joins, rows, accountId, start, itemsPerPage)
        ensures x in rows && Linked(joins, accountId, x)
      {
        LinkedIds(joins, accountId, x);
      }
    }
  }

  /** Without paging every linked right of the table comes back. */
  lemma AccountRightsComplete(joins: seq<AccountRight>, rows: seq<Right>, accountId: int, start: string,
                              itemsPerPage: nat)
    requires StartOf(start) < 0
    ensures forall x :: x in rows && Linked(joins, accountId, x) ==>
              x in GetAccountRights(joins, rows, accountId, start, itemsPerPage)
  {
    var links := Filter(joins, ForAccount(accountId));
    FilterMembers(joins, ForAccount(accountId));
    var ids := RightIdsOf(links);
    FilterMembers(rows, IdIn(ids));
    forall x | x in rows && Linked(joins, accountId, x)
      ensures x in GetAccountRights(joins, rows, accountId, start, itemsPerPage)
    {
      LinkedIds(joins, accountId, x);
      var j :| j in joins && j.accountId == accountId && j.rightId == x.fields.id;
      assert j in links;
    }
  }

  // ---------------------------------------------------------------------------
  // assignDefaultRights

  /** The ids `assignDefaultRights` inserts: those of `getDefaultRights()`, in table order. */
  function DefaultRightIds(rights: seq<Right>, itemsPerPage: nat): seq<int> {
    IdsOf(GetDefaultRights(rights, AllRows(), itemsPerPage))
  }

  /** Whatever `ITEMS_PER_PAGE` is, the inserted ids are those of every truthy row of the catalogue, in order. */
  lemma DefaultRightIdsAll(rights: seq<Right>, itemsPerPage: nat)
    ensures DefaultRightIds(rights, itemsPerPage) == IdsOf(Filter(rights, IsDefaultRow()))
  {
    AllRowsStart();
    DefaultRightsAll(rights, AllRows(), itemsPerPage);
  }

  /** `.map((right) => right.id)` */
  function IdsOf(rs: seq<Right>): (ids: seq<int>)
    ensures |ids| == |rs|
  {
    seq(|rs|, k requires 0 <= k < |rs| => rs[k].fields.id)
  }

  /** One join row per id, in order. */
  function LinksFor(accountId: int, ids: seq<int>): (links: seq<AccountRight>)
    ensures |links| == |ids|
  {
    seq(|ids|, k requires 0 <= k < |ids| => AccountRight(accountId, ids[k]))
  }

  /** The join table after the delete and the loop of inserts. */
  function AssignedRights(joins: seq<AccountRight>, accountId: int, ids: seq<int>): seq<AccountRight> {
    WithoutAccount(joins, accountId) + LinksFor(accountId, ids)
  }

  /** `assignDefaultRights(accountId)`: delete the account's rows, then insert one row per default right. */
  method AssignDefaultRights(db: Db, accountId: int, itemsPerPage: nat) returns (ok: bool)
    modifies db`accountRights
    ensures ok
    ensures db.accountRights == AssignedRights(old(db.accountRights), accountId, DefaultRightIds(db.rights, itemsPerPage))
  {
    var ids := IdsOf(GetDefaultRights(db.rights, AllRows(), itemsPerPage));
    var _ := DeleteAccountRights(db, accountId);
    InsertLinks(db, accountId, ids);
    ok := true;
  }

  /** The `for (let id of defaultRightIds)` loop: one `INSERT INTO account_right` per id, in order. */
  method InsertLinks(db: Db, accountId: int, ids: seq<int>)
    modifies db`accountRights
    ensures db.accountRights == old(db.accountRights) + LinksFor(accountId, ids)
  {
    for i := 0 to |ids|
      invariant db.accountRights == old(db.accountRights) + LinksFor(accountId, ids[..i])
    {
      LinksForSnoc(accountId, ids, i);
      db.accountRights := db.accountRights + [AccountRight(accountId, ids[i])];
    }
    assert ids[..|ids|] == ids;
  }

  lemma LinksForSnoc(accountId: int, ids: seq<int>, i: int)
    requires 0 <= i < |ids|
    ensures LinksFor(accountId, ids[..i + 1]) == LinksFor(accountId, ids[..i]) + [AccountRight(accountId, ids[i])]
  {
  }

  /** Afterwards the account's join rows are exactly one per default right id, in order. */
  lemma AssignedRowsOfAccount(joins: seq<AccountRight>, accountId: int, ids: seq<int>)
    ensures Filter(AssignedRights(joins, accountId, ids), ForAccount(accountId)) == LinksFor(accountId, ids)
  {
    var kept := WithoutAccount(joins, accountId);
    var added := LinksFor(accountId, ids);
    FilterConcat(kept, added, ForAccount(accountId));
    FilterMembers(joins, NotForAccount(accountId));
    forall k | 0 <= k < |kept| ensures !ForAccount(accountId)(kept[k]) {
      assert kept[k] in kept;
    }
    FilterNone(kept, ForAccount(accountId));
    FilterAll(added, ForAccount(accountId));
  }

  /** The join rows of every other account are unchanged. */
  lemma AssignKeepsOthers(joins: seq<AccountRight>, accountId: int, ids: seq<int>, other: int)
    requires other != accountId
    ensures Filter(AssignedRights(joins, accountId, ids), ForAccount(other)) == Filter(joins, ForAccount(other))
  {
    var kept := WithoutAccount(joins, accountId);
    var added := LinksFor(accountId, ids);
    FilterConcat(kept, added, ForAccount(other));
    WithoutAccountKeepsOthers(joins, accountId, other);
    FilterNone(added, ForAccount(other));
  }

  /** Assigning the same defaults again gives the same table. */
  lemma AssignIdempotent(joins: seq<AccountRight>, accountId: int, ids: seq<int>)
    ensures AssignedRights(AssignedRights(joins, accountId, ids), accountId, ids) == AssignedRights(joins, accountId, ids)
  {
    var kept := WithoutAccount(joins, accountId);
    var added := LinksFor(accountId, ids);
    FilterConcat(kept, added, NotForAccount(accountId));
    FilterIdempotent(joins, NotForAccount(accountId));
    FilterNone(added, NotForAccount(accountId));
    assert kept + [] == kept;
  }
}
