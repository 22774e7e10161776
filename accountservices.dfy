/**
 * The account store operations (controllers/accounts/services.js): the lookup cascade,
 * the role flags, the public projection, the three token slots and their rotation,
 * the cascading delete with its mail outbox, and the last-administrator guard.
 *
 * JWT signing is an abstract `sign` function, `crypto.randomBytes(64)` a 64-byte parameter,
 * the clock an integer `now` in seconds, and the gravatar URL an abstract `gravatar` function.
 */
module AccountServices {
  import opened Wrappers
  import opened JsText
  import opened Store

  // ---------------------------------------------------------------------------
  // cleanAccount

  /** The object `cleanAccount` returns: the stored flags as booleans, the two derived roles, every other column. */
  datatype Clean = Clean(active: bool, isAdmin: bool, isPartner: bool, isStructure: bool, profile: Profile)

  function CleanAccount(a: Account): Clean {
    Clean(
      a.active == 1,
      a.isAdmin == 1,
      a.isAdmin == 0 && a.profile.partnerId == 0,
      a.isAdmin == 0 && a.profile.partnerId > 0,
      a.profile)
  }

  /** A row with a 0/1 `is_admin` and a non-negative `partner_id` has exactly one role. */
  lemma CleanAccountRoles(a: Account)
    requires a.isAdmin == 0 || a.isAdmin == 1
    requires a.profile.partnerId >= 0
    ensures var c := CleanAccount(a);
      && (c.isAdmin || c.isPartner || c.isStructure)
      && !(c.isAdmin && c.isPartner) && !(c.isAdmin && c.isStructure) && !(c.isPartner && c.isStructure)
  {
  }

  /** A stored `is_admin` other than 0 and 1 gives an account with no role at all. */
  lemma CleanAccountNoRole(a: Account)
    requires a.isAdmin != 0 && a.isAdmin != 1
    ensures var c := CleanAccount(a); !c.isAdmin && !c.isPartner && !c.isStructure
  {
  }

  /** The row a cleaned account stands for, when the stored flags are 0 or 1. */
  function Raw(c: Clean): (a: Account)
    ensures a.profile == c.profile
    ensures a.active == 0 || a.active == 1
    ensures a.isAdmin == 0 || a.isAdmin == 1
  {
    Account(if c.active then 1 else 0, if c.isAdmin then 1 else 0, c.profile)
  }

  /** With 0/1 flags, cleaning loses nothing: the row is recovered from the cleaned account. */
  lemma CleanAccountRoundTrip(a: Account)
    requires a.active == 0 || a.active == 1
    requires a.isAdmin == 0 || a.isAdmin == 1
    ensures Raw(CleanAccount(a)) == a
    ensures CleanAccount(a).active <==> a.active == 1
    ensures CleanAccount(a).isAdmin <==> a.isAdmin == 1
  {
  }

  // ---------------------------------------------------------------------------
  // secureAccountData

  /** What `secureAccountData` gives out: every key of a cleaned account but the password and two token slots. */
  datatype Public = Public(
    active: bool, isAdmin: bool, isPartner: bool, isStructure: bool,
    id: int, email: string, name: string, partnerId: int,
    activationToken: string,
    avatarUrl: string,
    postalAddress: string, gsm: string, description: string, firstConnexion: int)

  /** Drops `password`, `access_token` and `passwordlost_token`; a null avatar becomes the gravatar URL of the email. */
  function SecureAccountData(c: Clean, gravatar: string -> string): (p: Public)
    ensures c.profile.avatarUrl.Some? ==> p.avatarUrl == c.profile.avatarUrl.value
    ensures c.profile.avatarUrl.None? ==> p.avatarUrl == gravatar(c.profile.email)
  {
    var q := c.profile;
    Public(c.active, c.isAdmin, c.isPartner, c.isStructure, q.id, q.email, q.name, q.partnerId,
      q.activationToken,
      if q.avatarUrl.Some? then q.avatarUrl.value else gravatar(q.email),
      q.postalAddress, q.gsm, q.description, q.firstConnexion)
  }

  /** Puts back the three dropped columns (and a stored avatar URL). */
  function Restore(p: Public, password: string, accessToken: string, passwordlostToken: string): Clean {
    Clean(p.active, p.isAdmin, p.isPartner, p.isStructure,
      Profile(p.id, p.email, p.name, p.partnerId, password, accessToken, passwordlostToken,
        p.activationToken, Some(p.avatarUrl), p.postalAddress, p.gsm, p.description, p.firstConnexion))
  }

  /**
   * Every key other than the three secrets is kept: restoring the secrets gives back the account
   * (with no stored avatar, everything but the avatar).
   */
  lemma SecureAccountDataKeepsTheRest(c: Clean, gravatar: string -> string)
    ensures var q := c.profile;
      var r := Restore(SecureAccountData(c, gravatar), q.password, q.accessToken, q.passwordlostToken);
      (q.avatarUrl.Some? ==> r == c) && r.(profile := r.profile.(avatarUrl := q.avatarUrl)) == c
  {
  }

  /** The public view does not depend on the secrets at all. */
  lemma SecureAccountDataHidesSecrets(c: Clean, password: string, accessToken: string, passwordlostToken: string,
                                      gravatar: string -> string)
    ensures SecureAccountData(c, gravatar) ==
      SecureAccountData(c.(profile := c.profile.(password := password, accessToken := accessToken,
                                                 passwordlostToken := passwordlostToken)), gravatar)
  {
  }

  // ---------------------------------------------------------------------------
  // Token slots

  /** The three token columns a `tokenType` argument can name. */
  datatype Slot = AccessToken | PasswordLostToken | ActivationToken

  function SlotOf(p: Profile, slot: Slot): string {
    match slot
    case AccessToken => p.accessToken
    case PasswordLostToken => p.passwordlostToken
    case ActivationToken => p.activationToken
  }

  /** `SET ${tokenType} = value` on one row. */
  function WithSlot(p: Profile, slot: Slot, value: string): (r: Profile)
    ensures SlotOf(r, slot) == value
    ensures forall other :: other != slot ==> SlotOf(r, other) == SlotOf(p, other)
  {
    match slot
    case AccessToken => p.(accessToken := value)
    case PasswordLostToken => p.(passwordlostToken := value)
    case ActivationToken => p.(activationToken := value)
  }

  /** No column other than the slot itself changes, and writing back the old value restores the row. */
  lemma WithSlotKeepsColumns(p: Profile, slot: Slot, value: string)
    ensures WithSlot(WithSlot(p, slot, value), slot, SlotOf(p, slot)) == p
    ensures var r := WithSlot(p, slot, value);
      && r.id == p.id && r.email == p.email && r.name == p.name && r.partnerId == p.partnerId
      && r.password == p.password && r.avatarUrl == p.avatarUrl && r.postalAddress == p.postalAddress
      && r.gsm == p.gsm && r.description == p.description && r.firstConnexion == p.firstConnexion
  {
  }

  function SetSlot(a: Account, slot: Slot, value: string): Account {
    a.(profile := WithSlot(a.profile, slot, value))
  }

  /** `UPDATE accounts SET ${tokenType} = value WHERE email = $email`. */
  function UpdateSlot(rows: seq<Account>, email: string, slot: Slot, value: string): (r: seq<Account>)
    ensures |r| == |rows|
  {
    if rows == [] then []
    else
      var head := if rows[0].profile.email == email then SetSlot(rows[0], slot, value) else rows[0];
      [head] + UpdateSlot(rows[1..], email, slot, value)
  }

  /** Exactly the rows with the email get the new slot value; every other row is unchanged. */
  lemma {:induction false} UpdateSlotRows(rows: seq<Account>, email: string, slot: Slot, value: string)
    ensures var r := UpdateSlot(rows, email, slot, value);
      forall i :: 0 <= i < |rows| ==>
        r[i] == if rows[i].profile.email == email then SetSlot(rows[i], slot, value) else rows[i]
  {
    if rows != [] {
      UpdateSlotRows(rows[1..], email, slot, value);
    }
  }

  /** Writing the same value twice is writing it once. */
  lemma UpdateSlotIdempotent(rows: seq<Account>, email: string, slot: Slot, value: string)
    ensures UpdateSlot(UpdateSlot(rows, email, slot, value), email, slot, value) == UpdateSlot(rows, email, slot, value)
  {
    var once := UpdateSlot(rows, email, slot, value);
    var twice := UpdateSlot(once, email, slot, value);
    UpdateSlotRows(rows, email, slot, value);
    UpdateSlotRows(once, email, slot, value);
    forall i | 0 <= i < |rows| ensures twice[i] == once[i] {
      if rows[i].profile.email == email {
        assert SlotOf(once[i].profile, slot) == value;
        assert WithSlot(once[i].profile, slot, value) == once[i].profile;
      }
    }
  }

  // ---------------------------------------------------------------------------
  // getAccount

  /** The result of `getAccount`: a cleaned account, or the error code and message. */
  datatype Lookup = Found(account: Clean) | Failure(code: int, message: string)

  /** `WHERE email = $email` */
  function HasEmail(email: string): Account -> bool {
    (a: Account) => a.profile.email == email
  }

  const NotFound := Failure(404, "Account not found.")
  const NotActivated := Failure(403, "Account is not yet activated.")
  const Unauthorized := Failure(401, "Unauthorized.")

  /**
   * `getAccount(email, fn, onlyExists)`: 404 unless exactly one row has the email; then, unless
   * `onlyExists`, 403 for a row whose `active` is 0; then 401 when `fn` is given and refuses the
   * raw row; otherwise the cleaned row.
   */
  function GetAccount(rows: seq<Account>, email: string, fn: Option<Account -> bool>, onlyExists: bool): (r: Lookup)
    ensures r.Failure? ==> r == NotFound || r == NotActivated || r == Unauthorized
  {
    var found := Filter(rows, HasEmail(email));
    if |found| != 1 then NotFound
    else
      var a := found[0];
      if !onlyExists && a.active == 0 then NotActivated
      else if fn.Some? && !fn.value(a) then Unauthorized
      else Found(CleanAccount(a))
  }

  /**
   * The cascade in terms of the table: 404 exactly when no single row has the email; for the
   * single row, 403 when inactive (unless `onlyExists`), checked before `fn`; 401 when `fn`
   * refuses it; otherwise the cleaned row.
   */
  lemma GetAccountCascade(rows: seq<Account>, email: string, fn: Option<Account -> bool>, onlyExists: bool)
    ensures var r := GetAccount(rows, email, fn, onlyExists);
      && (r == NotFound <==> !exists i :: OnlyAt(rows, HasEmail(email), i))
      && forall i :: OnlyAt(rows, HasEmail(email), i) ==>
        && (r == NotActivated <==> !onlyExists && rows[i].active == 0)
        && (r == Unauthorized <==> (onlyExists || rows[i].active != 0) && fn.Some? && !fn.value(rows[i]))
        && (r.Found? <==> (onlyExists || rows[i].active != 0) && (fn.None? || fn.value(rows[i])))
        && (r.Found? ==> r.account == CleanAccount(rows[i]))
  {
    FilterSingleton(rows, HasEmail(email));
  }

  /** A found account is the cleaned unique row with the email, which passed the activation check unless `onlyExists`. */
  lemma GetAccountFound(rows: seq<Account>, email: string, fn: Option<Account -> bool>, onlyExists: bool)
    requires GetAccount(rows, email, fn, onlyExists).Found?
    ensures var c := GetAccount(rows, email, fn, onlyExists).account;
      && c.profile.email == email
      && exists i :: OnlyAt(rows, HasEmail(email), i) && c == CleanAccount(rows[i]) && (onlyExists || rows[i].active != 0)
  {
    GetAccountCascade(rows, email, fn, onlyExists);
    var i :| OnlyAt(rows, HasEmail(email), i);
  }

  /** `onlyExists` only lifts the activation check: an active account is found either way. */
  lemma {:induction false} OnlyExistsLiftsActivation(rows: seq<Account>, email: string, fn: Option<Account -> bool>)
    ensures GetAccount(rows, email, fn, false).Found? ==> GetAccount(rows, email, fn, false) == GetAccount(rows, email, fn, true)
    ensures GetAccount(rows, email, fn, true) == NotFound <==> GetAccount(rows, email, fn, false) == NotFound
  {
    GetAccountCascade(rows, email, fn, false);
    GetAccountCascade(rows, email, fn, true);
    if GetAccount(rows, email, fn, false).Found? {
      var i :| OnlyAt(rows, HasEmail(email), i);
    }
  }

  /** Rewriting a token slot never changes which lookups fail for reasons other than `fn`. */
  lemma UpdateSlotKeepsOnlyAt(rows: seq<Account>, email: string, e: string, slot: Slot, value: string, i: int)
    ensures OnlyAt(UpdateSlot(rows, e, slot, value), HasEmail(email), i) <==> OnlyAt(rows, HasEmail(email), i)
  {
    var r := UpdateSlot(rows, e, slot, value);
    UpdateSlotRows(rows, e, slot, value);
    assert forall j :: 0 <= j < |rows| ==> r[j].profile.email == rows[j].profile.email && r[j].active == rows[j].active;
  }

  lemma UpdateSlotKeepsLookup(rows: seq<Account>, email: string, e: string, slot: Slot, value: string, onlyExists: bool)
    ensures GetAccount(UpdateSlot(rows, e, slot, value), email, None, onlyExists).Found?
        <==> GetAccount(rows, email, None, onlyExists).Found?
  {
    var r := UpdateSlot(rows, e, slot, value);
    UpdateSlotRows(rows, e, slot, value);
    GetAccountCascade(rows, email, None, onlyExists);
    GetAccountCascade(r, email, None, onlyExists);
    forall i ensures OnlyAt(r, HasEmail(email), i) <==> OnlyAt(rows, HasEmail(email), i) {
      UpdateSlotKeepsOnlyAt(rows, email, e, slot, value, i);
    }
    if exists i :: OnlyAt(rows, HasEmail(email), i) {
      var i :| OnlyAt(rows, HasEmail(email), i);
      assert r[i].active == rows[i].active;
    }
  }

  // ---------------------------------------------------------------------------
  // getAccounts and its filters

  /**
   * `getAccounts(fn)`: the raw rows, passed through `fn` when given. The source maps
   * `cleanAccount` over the result and throws the map away, so callers get raw rows.
   */
  function GetAccounts(rows: seq<Account>, fn: Option<seq<Account> -> seq<Account>>): (r: seq<Account>)
    ensures fn.None? ==> r == rows
    ensures rows == [] ==> r == []
  {
    if |rows| < 1 then []
    else if fn.Some? then fn.value(rows)
    else rows
  }

  /** `getPartner(id)` (and `getStructure`, `getAdministrator`, the same query): the raw rows with that id. */
  function GetById(rows: seq<Account>, id: int): (r: seq<Account>)
    ensures forall k :: 0 <= k < |r| ==> r[k] in rows && r[k].profile.id == id
    ensures forall k :: 0 <= k < |rows| && rows[k].profile.id == id ==> rows[k] in r
  {
    FilterMembers(rows, HasId(id));
    var r := GetAccounts(rows, Some((acs: seq<Account>) => Filter(acs, HasId(id))));
    assert r == Filter(rows, HasId(id));
    r
  }

  /** `WHERE id = $id` */
  function HasId(id: int): Account -> bool {
    (a: Account) => a.profile.id == id
  }

  /** `getPartners()`: raw rows with `is_admin` 0 and `partner_id` 0. */
  function GetPartners(rows: seq<Account>): (r: seq<Account>)
    ensures forall k :: 0 <= k < |r| ==> r[k] in rows && r[k].isAdmin == 0 && r[k].profile.partnerId == 0
    ensures forall k :: 0 <= k < |rows| && rows[k].isAdmin == 0 && rows[k].profile.partnerId == 0 ==> rows[k] in r
  {
    FilterMembers(rows, IsPartnerRow());
    var r := GetAccounts(rows, Some((acs: seq<Account>) => Filter(acs, IsPartnerRow())));
    assert r == Filter(rows, IsPartnerRow());
    r
  }

  /** `is_admin = 0 AND partner_id = 0` */
  function IsPartnerRow(): Account -> bool {
    (a: Account) => a.isAdmin == 0 && a.profile.partnerId == 0
  }

  /** `WHERE partner_id = $partner_id` */
  function InPartner(partnerId: int): Account -> bool {
    (a: Account) => a.profile.partnerId == partnerId
  }

  /** `getPartnerStructures(id)`: raw rows whose `partner_id` is the id (whatever their `is_admin`). */
  function GetPartnerStructures(rows: seq<Account>, partnerId: int): (r: seq<Account>)
    ensures r == Filter(rows, InPartner(partnerId))
    ensures forall k :: 0 <= k < |r| ==> r[k] in rows && r[k].profile.partnerId == partnerId
    ensures forall k :: 0 <= k < |rows| && rows[k].profile.partnerId == partnerId ==> rows[k] in r
  {
    FilterMembers(rows, InPartner(partnerId));
    var r := GetAccounts(rows, Some((acs: seq<Account>) => Filter(acs, InPartner(partnerId))));
    assert r == Filter(rows, InPartner(partnerId));
    r
  }

  /** `is_admin = 1` */
  function IsAdminRow(): Account -> bool {
    (a: Account) => a.isAdmin == 1
  }

  /** `getAdministrators()`: raw rows with `is_admin` 1. */
  function GetAdministrators(rows: seq<Account>): (r: seq<Account>)
    ensures forall k :: 0 <= k < |r| ==> r[k] in rows && r[k].isAdmin == 1
    ensures forall k :: 0 <= k < |rows| && rows[k].isAdmin == 1 ==> rows[k] in r
  {
    FilterMembers(rows, IsAdminRow());
    var r := GetAccounts(rows, Some((acs: seq<Account>) => Filter(acs, IsAdminRow())));
    assert r == Filter(rows, IsAdminRow());
    r
  }

  // ---------------------------------------------------------------------------
  // hasLeastOneAdmin

  /** True when deleting one administrator still leaves one: at least two rows have `is_admin` 1. */
  function HasLeastOneAdmin(rows: seq<Account>): (r: bool)
    ensures r <==> exists i, j :: 0 <= i < j < |rows| && rows[i].isAdmin == 1 && rows[j].isAdmin == 1
  {
    FilterAtLeastTwo(rows, IsAdminRow());
    |Filter(rows, IsAdminRow())| >= 2
  }

  // ---------------------------------------------------------------------------
  // generateToken, clearToken

  /** The claims `jwt.sign` receives, with the expiry it adds. */
  datatype Claims = Claims(email: string, token: string, exp: int)

  /**
   * What `generateToken` returns, read the way its callers do: on failure it is `{token: "",
   * expires: 0}`, on success `{jwtToken, expires}`, so each field is absent (`undefined`) in one case.
   */
  datatype Issued = Issued(token: Option<string>, jwtToken: Option<string>, expires: int)

  const NotIssued := Issued(Some(""), None, 0)

  /** `generateToken` and `clearToken` first look the account up, with activation required. */
  predicate CanIssue(rows: seq<Account>, email: string) {
    GetAccount(rows, email, None, false).Found?
  }

  /** Exactly one row has the email and it is active. */
  lemma CanIssueMeans(rows: seq<Account>, email: string)
    ensures CanIssue(rows, email) <==> exists i :: OnlyAt(rows, HasEmail(email), i) && rows[i].active != 0
  {
    GetAccountCascade(rows, email, None, false);
    if exists i :: OnlyAt(rows, HasEmail(email), i) && rows[i].active != 0 {
      var i :| OnlyAt(rows, HasEmail(email), i) && rows[i].active != 0;
    }
  }

  /** The accounts table after `generateToken(email, slot)` drew `secret`. */
  function AfterIssue(rows: seq<Account>, email: string, slot: Slot, secret: string): seq<Account> {
    if CanIssue(rows, email) then UpdateSlot(rows, email, slot, secret) else rows
  }

  /**
   * `generateToken(email, tokenType)`: for a missing or inactive account nothing changes and
   * `{token: "", expires: 0}` comes back; otherwise the slot receives the hex of 64 random bytes
   * and a signed envelope carrying email and secret is returned with its expiry.
   */
  method GenerateToken(db: Db, email: string, slot: Slot, random: seq<byte>, sign: Claims -> string, now: int, ttl: int)
    returns (issued: Issued)
    requires |random| == 64
    modifies db`accounts
    ensures db.accounts == AfterIssue(old(db.accounts), email, slot, HexEncode(random))
    ensures !CanIssue(old(db.accounts), email) ==> issued == NotIssued
    ensures CanIssue(old(db.accounts), email) ==>
      issued == Issued(None, Some(sign(Claims(email, HexEncode(random), now + ttl))), now + ttl)
  {
    var lookup := GetAccount(db.accounts, email, None, false);
    if lookup.Failure? {
      return NotIssued;
    }
    var token := HexEncode(random);
    db.accounts := UpdateSlot(db.accounts, email, slot, token);
    var jwtToken := sign(Claims(email, token, now + ttl));
    issued := Issued(None, Some(jwtToken), now + ttl);
  }

  /** After a successful issue, the account's slot holds a 128-character hex secret, and nothing else changed. */
  lemma IssuedSecretIsHex(rows: seq<Account>, email: string, slot: Slot, random: seq<byte>, i: int)
    requires |random| == 64
    requires OnlyAt(rows, HasEmail(email), i) && rows[i].active != 0
    ensures var after := AfterIssue(rows, email, slot, HexEncode(random));
      && |after| == |rows|
      && |SlotOf(after[i].profile, slot)| == 128
      && (forall k :: 0 <= k < 128 ==> IsHexChar(SlotOf(after[i].profile, slot)[k]))
      && (forall j :: 0 <= j < |rows| && j != i ==> after[j] == rows[j])
      && (forall other :: other != slot ==> SlotOf(after[i].profile, other) == SlotOf(rows[i].profile, other))
  {
    CanIssueMeans(rows, email);
    UpdateSlotRows(rows, email, slot, HexEncode(random));
  }

  /** Issuing or clearing a token keeps the account issuable. */
  lemma IssueKeepsCanIssue(rows: seq<Account>, email: string, slot: Slot, secret: string)
    ensures CanIssue(AfterIssue(rows, email, slot, secret), email) <==> CanIssue(rows, email)
  {
    UpdateSlotKeepsLookup(rows, email, email, slot, secret, false);
  }

  /** The accounts table after `clearToken(email, slot)`. */
  function AfterClear(rows: seq<Account>, email: string, slot: Slot): seq<Account> {
    AfterIssue(rows, email, slot, "")
  }

  /** `clearToken(email, tokenType)`: false and no change for a missing or inactive account; else the slot becomes ''. */
  method ClearToken(db: Db, email: string, slot: Slot) returns (ok: bool)
    modifies db`accounts
    ensures ok <==> CanIssue(old(db.accounts), email)
    ensures db.accounts == AfterClear(old(db.accounts), email, slot)
  {
    var lookup := GetAccount(db.accounts, email, None, false);
    if lookup.Failure? {
      return false;
    }
    db.accounts := UpdateSlot(db.accounts, email, slot, "");
    ok := true;
  }

  /** Clearing a slot twice leaves the same table as clearing it once, and reports success both times or neither. */
  lemma ClearTokenIdempotent(rows: seq<Account>, email: string, slot: Slot)
    ensures AfterClear(AfterClear(rows, email, slot), email, slot) == AfterClear(rows, email, slot)
    ensures CanIssue(AfterClear(rows, email, slot), email) <==> CanIssue(rows, email)
  {
    UpdateSlotKeepsLookup(rows, email, email, slot, "", false);
    if CanIssue(rows, email) {
      UpdateSlotIdempotent(rows, email, slot, "");
    }
  }

  /** A cleared slot is empty on the account's row. */
  lemma ClearedSlotIsEmpty(rows: seq<Account>, email: string, slot: Slot, i: int)
    requires OnlyAt(rows, HasEmail(email), i) && rows[i].active != 0
    ensures SlotOf(AfterClear(rows, email, slot)[i].profile, slot) == ""
  {
    CanIssueMeans(rows, email);
    UpdateSlotRows(rows, email, slot, "");
  }

  // ---------------------------------------------------------------------------
  // refreshToken

  /** The outcome of `jwt.verify`: the claims, or the error's kind. */
  datatype Verified = Valid(email: string, token: string, exp: int) | Expired | Malformed

  /** `(account) => account[tokenType] === token` */
  function SlotMatches(slot: Slot, token: string): Account -> bool {
    (a: Account) => SlotOf(a.profile, slot) == token
  }

  /** How the promise of `refreshToken` settles. */
  datatype RefreshOutcome =
    | Rejected(error: Verified)
    | AccountRejected(code: int, message: string)
    | Resolved(account: Public, token: Option<string>, expires: int)

  /** The lookup `refreshToken` runs for valid claims: active, and holding the envelope's secret in the slot. */
  function RefreshLookup(rows: seq<Account>, claims: Verified, slot: Slot): Lookup
    requires claims.Valid?
  {
    GetAccount(rows, claims.email, Some(SlotMatches(slot, claims.token)), false)
  }

  /** A lookup that an extra `fn` lets through is one `generateToken` accepts too. */
  lemma FoundWithCheckCanIssue(rows: seq<Account>, email: string, fn: Account -> bool)
    requires GetAccount(rows, email, Some(fn), false).Found?
    ensures CanIssue(rows, email)
    ensures GetAccount(rows, email, Some(fn), false) == GetAccount(rows, email, None, false)
  {
    GetAccountCascade(rows, email, Some(fn), false);
    GetAccountCascade(rows, email, None, false);
    var i :| OnlyAt(rows, HasEmail(email), i);
  }

  /**
   * `refreshToken(jwtToken, tokenType)` given the verification result: a verification error
   * rejects; otherwise the account must exist, be active and hold the envelope's secret in the
   * slot (else the lookup error rejects, named "Account"); then the secret is rotated.
   */
  method RefreshToken(db: Db, verified: Verified, slot: Slot, random: seq<byte>, sign: Claims -> string,
                      gravatar: string -> string, now: int, ttl: int)
    returns (outcome: RefreshOutcome)
    requires |random| == 64
    modifies db`accounts
    ensures !verified.Valid? ==> outcome == Rejected(verified) && db.accounts == old(db.accounts)
    ensures verified.Valid? && RefreshLookup(old(db.accounts), verified, slot).Failure? ==>
      && outcome == AccountRejected(RefreshLookup(old(db.accounts), verified, slot).code,
                                    RefreshLookup(old(db.accounts), verified, slot).message)
      && db.accounts == old(db.accounts)
    ensures verified.Valid? && RefreshLookup(old(db.accounts), verified, slot).Found? ==>
      && db.accounts == UpdateSlot(old(db.accounts), verified.email, slot, HexEncode(random))
      && outcome == Resolved(SecureAccountData(RefreshLookup(old(db.accounts), verified, slot).account, gravatar),
                             Some(sign(Claims(verified.email, HexEncode(random), now + ttl))), now + ttl)
  {
    if !verified.Valid? {
      return Rejected(verified);
    }
    var lookup := GetAccount(db.accounts, verified.email, Some(SlotMatches(slot, verified.token)), false);
    if lookup.Failure? {
      return AccountRejected(lookup.code, lookup.message);
    }
    FoundWithCheckCanIssue(db.accounts, verified.email, SlotMatches(slot, verified.token));
    GetAccountFound(db.accounts, verified.email, None, false);
    var data := GenerateToken(db, lookup.account.profile.email, slot, random, sign, now, ttl);
    outcome := Resolved(SecureAccountData(lookup.account, gravatar), data.jwtToken, data.expires);
  }

  /** A refresh succeeds only when the slot holds the envelope's secret. */
  lemma RefreshNeedsStoredSecret(rows: seq<Account>, email: string, token: string, slot: Slot, i: int)
    requires OnlyAt(rows, HasEmail(email), i)
    requires GetAccount(rows, email, Some(SlotMatches(slot, token)), false).Found?
    ensures SlotOf(rows[i].profile, slot) == token && rows[i].active != 0
  {
    GetAccountCascade(rows, email, Some(SlotMatches(slot, token)), false);
  }

  /** After the rotation, an envelope carrying the old secret is refused with 401 (unless the draw repeated it). */
  lemma RotationInvalidatesOldSecret(rows: seq<Account>, email: string, token: string, slot: Slot, secret: string, i: int)
    requires OnlyAt(rows, HasEmail(email), i) && rows[i].active != 0
    requires secret != token
    ensures GetAccount(UpdateSlot(rows, email, slot, secret), email, Some(SlotMatches(slot, token)), false) == Unauthorized
  {
    var after := UpdateSlot(rows, email, slot, secret);
    UpdateSlotRows(rows, email, slot, secret);
    UpdateSlotKeepsOnlyAt(rows, email, email, slot, secret, i);
    assert after[i] == SetSlot(rows[i], slot, secret);
    assert SlotOf(after[i].profile, slot) == secret;
    GetAccountCascade(after, email, Some(SlotMatches(slot, token)), false);
  }

  // ---------------------------------------------------------------------------
  // deleteAccount

  /** One entry of `mailsToSend`. */
  datatype Mail = Mail(templateFile: string, to: string, displayName: string, structureName: Option<string>)

  /** The goodbye mail to one account. */
  function DeletedMail(a: Profile): Mail {
    Mail("account-deleted.html", a.email, a.name, None)
  }

  /** The mails the `forEach` pushes for a partner's structures, in order. */
  function StructureMails(structures: seq<Account>): (m: seq<Mail>)
    ensures |m| == |structures|
    ensures forall k :: 0 <= k < |m| ==> m[k] == DeletedMail(structures[k].profile)
  {
    if structures == [] then []
    else StructureMails(structures[..|structures| - 1]) + [DeletedMail(structures[|structures| - 1].profile)]
  }

  /** `WHERE email <> $email`, what a `DELETE ... WHERE email = $email` keeps. */
  function OtherEmail(email: string): Account -> bool {
    (a: Account) => a.profile.email != email
  }

  /** What a `DELETE ... WHERE partner_id = $id` keeps. */
  function OutsidePartner(id: int): Account -> bool {
    (a: Account) => a.profile.partnerId != id
  }

  /** The accounts table after `deleteAccount(account)`. */
  function AfterDelete(rows: seq<Account>, account: Clean): seq<Account> {
    var kept := if account.isPartner then Filter(rows, OutsidePartner(account.profile.id)) else rows;
    Filter(kept, OtherEmail(account.profile.email))
  }

  /** The outbox `deleteAccount(account)` builds: structures, then the partner, then the account itself. */
  function DeleteMails(rows: seq<Account>, account: Clean): seq<Mail> {
    var forStructures := if account.isPartner then StructureMails(GetPartnerStructures(rows, account.profile.id)) else [];
    // the partner is looked up after the structures of a partner have been deleted
    var kept := if account.isPartner then Filter(rows, OutsidePartner(account.profile.id)) else rows;
    var partner := GetById(kept, account.profile.partnerId);
    var forPartner :=
      if account.isStructure && |partner| >= 1 then
        [Mail("structure-account-deleted.html", partner[0].profile.email, partner[0].profile.name, Some(account.profile.name))]
      else [];
    forStructures + forPartner + [DeletedMail(account.profile)]
  }

  /**
   * `deleteAccount(account)`: deletes a partner's structures, then the account, and collects the
   * outbox; it is sent only when `SEND_MAILS_ON_DELETE` is "true". The join table is not touched.
   */
  method DeleteAccount(db: Db, account: Clean, sendMailsOnDelete: string)
    returns (ok: bool, outbox: seq<Mail>, dispatched: bool)
    modifies db`accounts
    ensures ok
    ensures db.accounts == AfterDelete(old(db.accounts), account)
    ensures db.rights == old(db.rights) && db.accountRights == old(db.accountRights)
    ensures outbox == DeleteMails(old(db.accounts), account)
    ensures dispatched <==> sendMailsOnDelete == "true"
  {
    outbox := [];
    if account.isPartner {
      var structures := GetPartnerStructures(db.accounts, account.profile.id);
      db.accounts := Filter(db.accounts, OutsidePartner(account.profile.id));
      var k := 0;
      while k < |structures|
        invariant 0 <= k <= |structures|
        invariant outbox == StructureMails(structures[..k])
      {
        assert structures[..k + 1][..k] == structures[..k];
        outbox := outbox + [DeletedMail(structures[k].profile)];
        k := k + 1;
      }
      assert structures[..k] == structures;
    }
    if account.isStructure {
      var partner := GetById(db.accounts, account.profile.partnerId);
      if |partner| >= 1 {
        outbox := outbox + [Mail("structure-account-deleted.html", partner[0].profile.email,
                                 partner[0].profile.name, Some(account.profile.name))];
      }
    }
    db.accounts := Filter(db.accounts, OtherEmail(account.profile.email));
    outbox := outbox + [DeletedMail(account.profile)];
    dispatched := sendMailsOnDelete == "true";
    ok := true;
  }

  /**
   * After deleting a partner no row names it as partner and no row has its email; every other
   * row stays, and every remaining row was there before.
   */
  lemma DeletePartnerCascades(rows: seq<Account>, account: Clean)
    requires account.isPartner
    ensures var after := AfterDelete(rows, account);
      && (forall k :: 0 <= k < |after| ==> after[k] in rows)
      && (forall k :: 0 <= k < |after| ==> after[k].profile.partnerId != account.profile.id)
      && (forall k :: 0 <= k < |after| ==> after[k].profile.email != account.profile.email)
      && (forall k :: (0 <= k < |rows| && rows[k].profile.partnerId != account.profile.id
                        && rows[k].profile.email != account.profile.email) ==> rows[k] in after)
  {
    var kept := Filter(rows, OutsidePartner(account.profile.id));
    var after := Filter(kept, OtherEmail(account.profile.email));
    FilterMembers(rows, OutsidePartner(account.profile.id));
    FilterMembers(kept, OtherEmail(account.profile.email));
    forall k | 0 <= k < |rows| && rows[k].profile.partnerId != account.profile.id
                 && rows[k].profile.email != account.profile.email
      ensures rows[k] in after
    {
      assert OutsidePartner(account.profile.id)(rows[k]);
      assert rows[k] in kept;
      var j :| 0 <= j < |kept| && kept[j] == rows[k];
      assert OtherEmail(account.profile.email)(kept[j]);
    }
  }

  /** Deleting an account that is not a partner removes exactly the rows with its email. */
  lemma DeleteOtherRemovesEmail(rows: seq<Account>, account: Clean)
    requires !account.isPartner
    ensures var after := AfterDelete(rows, account);
      && (forall k :: 0 <= k < |after| ==> after[k] in rows && after[k].profile.email != account.profile.email)
      && (forall k :: 0 <= k < |rows| && rows[k].profile.email != account.profile.email ==> rows[k] in after)
  {
    var after := AfterDelete(rows, account);
    FilterMembers(rows, OtherEmail(account.profile.email));
    assert forall k :: 0 <= k < |after| ==> after[k] in after;
  }

  /** A partner's outbox has one mail per former structure, then the partner's own. */
  lemma DeletePartnerMails(rows: seq<Account>, account: Clean)
    requires account.isPartner && !account.isStructure
    ensures var structures := GetPartnerStructures(rows, account.profile.id);
      var outbox := DeleteMails(rows, account);
      && |outbox| == |structures| + 1
      && (forall k :: 0 <= k < |structures| ==> outbox[k] == DeletedMail(structures[k].profile))
      && outbox[|structures|] == DeletedMail(account.profile)
  {
  }

  /** A structure's outbox mails its partner only when the partner row exists. */
  lemma DeleteStructureMails(rows: seq<Account>, account: Clean)
    requires account.isStructure && !account.isPartner
    ensures var outbox := DeleteMails(rows, account);
      && outbox[|outbox| - 1] == DeletedMail(account.profile)
      && (|outbox| == 2 <==> exists k :: 0 <= k < |rows| && rows[k].profile.id == account.profile.partnerId)
      && (|outbox| == 1 || |outbox| == 2)
  {
    var partner := GetById(rows, account.profile.partnerId);
    if exists k :: 0 <= k < |rows| && rows[k].profile.id == account.profile.partnerId {
      var k :| 0 <= k < |rows| && rows[k].profile.id == account.profile.partnerId;
      assert rows[k] in partner;
    }
  }
}
