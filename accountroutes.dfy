/**
 * The account route handlers (controllers/accounts/index.js), each as a method over the
 * database that answers one request, specified by a plan: a function giving the response and
 * the new accounts table from the old one. The lemmas state the authorization and validation
 * guards, their order, and which token slots each flow leaves cleared.
 *
 * The services the handlers import but which are not part of this model (`createAccount`,
 * `activate`, `changePassword`, `accountExists`, `nameExists`, `formatAccountDatas`, password
 * verification, JWT signing and verification, gravatar, sending a mail) are function-valued
 * fields of `Services`: uninterpreted store transitions and queries.
 */
module AccountRoutes {
  import opened Wrappers
  import opened JsText
  import opened Store
  import opened Credentials
  import opened AccountServices
  import opened Http
  import opened Middleware

  /** The arguments `createAccount` receives; `partnerId` is `None` for a NaN. */
  datatype NewAccount = NewAccount(email: string, name: string, isAdmin: int, partnerId: Option<int>,
                                   postalAddress: string, gsm: string, avatarUrl: string)

  /** The mail `passwordlost` sends through `expressMail`. */
  datatype LinkMail = LinkMail(templateFile: string, to: string, displayName: string, email: string, link: string)

  /** A rejected mail promise: the error's code and message. */
  datatype MailError = MailError(code: int, message: string)

  datatype Services = Services(
    createAccount: (Tables, NewAccount) -> (bool, Tables),
    activate: (seq<Account>, string, bool) -> (bool, seq<Account>),
    changePassword: (seq<Account>, string, string) -> (bool, seq<Account>),
    accountExists: (seq<Account>, string) -> bool,
    nameExists: (seq<Account>, string) -> bool,
    verifyPassword: (string, string) -> bool,
    format: Clean -> Clean,
    sign: Claims -> string,
    verify: Option<string> -> Verified,
    gravatar: string -> string,
    sendMail: LinkMail -> Option<MailError>)

  /** The environment variables the handlers read; `jwtExpire` is `JWT_EXPIRE` in seconds. */
  datatype Config = Config(partnersCanDeleteStructs: string, sendMailsOnDelete: string, jwtExpire: int,
                           newPasswordLink: string)

  /** A response together with the accounts table it leaves. */
  datatype Outcome = Outcome(response: Response, accounts: seq<Account>)

  /** The refusal of a caller who is not an administrator. */
  function NotAllowed(): Response {
    Fail(403, "Account not allowed.")
  }

  /** A 204 when the last step succeeded, else a 500. */
  function Done(ok: bool): Response {
    if ok then Status(204) else Status(500)
  }

  // ---------------------------------------------------------------------------
  // DELETE /

  const DeleteForbidden := "Only administrators and authorized partners are able to delete accounts."
  const PartnerLimited := "Partners are only allowed to delete their structures."
  const LastAdmin := "One or more administrator account must be registered. Unable to delete the last one."

  datatype DeleteOutcome = DeleteOutcome(response: Response, accounts: seq<Account>, outbox: seq<Mail>, dispatched: bool)

  function DeletePlan(rows: seq<Account>, actor: Clean, email: string, cfg: Config): DeleteOutcome {
    if actor.isStructure || (actor.isPartner && cfg.partnersCanDeleteStructs != "true") then
      DeleteOutcome(Fail(403, DeleteForbidden), rows, [], false)
    else
      match GetAccount(rows, email, None, true)
      case Failure(code, message) => DeleteOutcome(Fail(code, message), rows, [], false)
      case Found(target) =>
        if actor.isPartner && (!target.isStructure || actor.profile.id != target.profile.partnerId) then
          DeleteOutcome(Fail(403, PartnerLimited), rows, [], false)
        else if target.isAdmin && !HasLeastOneAdmin(rows) then
          DeleteOutcome(Fail(403, LastAdmin), rows, [], false)
        else
          DeleteOutcome(Status(202), AfterDelete(rows, target), DeleteMails(rows, target), cfg.sendMailsOnDelete == "true")
  }

  /** `DELETE /` with body `{ email }`, behind `authenticate`. */
  method DeleteRoute(db: Db, auth: Auth, email: string, cfg: Config)
    returns (res: Response, outbox: seq<Mail>, dispatched: bool)
    modifies db`accounts
    ensures DeleteOutcome(res, db.accounts, outbox, dispatched) == DeletePlan(old(db.accounts), auth.account, email, cfg)
  {
    var actor := auth.account;
    outbox, dispatched := [], false;
    if actor.isStructure || (actor.isPartner && cfg.partnersCanDeleteStructs != "true") {
      return Fail(403, DeleteForbidden), outbox, dispatched;
    }
    var lookup := GetAccount(db.accounts, email, None, true);
    if lookup.Failure? {
      return Fail(lookup.code, lookup.message), outbox, dispatched;
    }
    var target := lookup.account;
    if actor.isPartner && (!target.isStructure || actor.profile.id != target.profile.partnerId) {
      return Fail(403, PartnerLimited), outbox, dispatched;
    }
    if target.isAdmin {
      var oneOrMoreAdmin := HasLeastOneAdmin(db.accounts);
      if !oneOrMoreAdmin {
        return Fail(403, LastAdmin), outbox, dispatched;
      }
    }
    var deleted;
    deleted, outbox, dispatched := DeleteAccount(db, target, cfg.sendMailsOnDelete);
    res := Status(202);
  }

  /** A structure may never delete. */
  lemma DeleteByStructureRefused(rows: seq<Account>, actor: Clean, email: string, cfg: Config)
    requires actor.isStructure
    ensures DeletePlan(rows, actor, email, cfg) == DeleteOutcome(Fail(403, DeleteForbidden), rows, [], false)
  {
  }

  /**
   * A delete succeeds exactly when the actor is no structure, the email names one row (active or
   * not), a partner actor is allowed by `PARTNERS_CAN_DELETE_STRUCTS` and targets one of its own
   * structures, and an administrator target is not the last one; every refusal changes nothing.
   */
  lemma DeleteSucceedsWhen(rows: seq<Account>, actor: Clean, email: string, cfg: Config)
    ensures var out := DeletePlan(rows, actor, email, cfg);
      && (out.response.code == 202 <==>
            exists i :: && OnlyAt(rows, HasEmail(email), i) && !actor.isStructure
                        && (actor.isPartner ==> && cfg.partnersCanDeleteStructs == "true"
                                                && CleanAccount(rows[i]).isStructure
                                                && rows[i].profile.partnerId == actor.profile.id)
                        && (rows[i].isAdmin == 1 ==> HasLeastOneAdmin(rows)))
      && (out.response.code != 202 ==> out.accounts == rows && out.outbox == [])
  {
    var out := DeletePlan(rows, actor, email, cfg);
    GetAccountCascade(rows, email, None, true);
    if out.response.code == 202 {
      var i :| OnlyAt(rows, HasEmail(email), i);
    }
  }

  /** Every administrator row has partner 0 and every id is positive, as account creation arranges. */
  ghost predicate AdminsApart(rows: seq<Account>) {
    forall k :: 0 <= k < |rows| ==> rows[k].profile.id >= 1 && (rows[k].isAdmin == 1 ==> rows[k].profile.partnerId == 0)
  }

  ghost predicate HasAdmin(rows: seq<Account>) {
    exists k :: 0 <= k < |rows| && rows[k].isAdmin == 1
  }

  /** A row that neither has the target's email nor (for a partner target) names it as partner survives the delete. */
  lemma SurvivesDelete(rows: seq<Account>, target: Clean, j: int)
    requires 0 <= j < |rows| && rows[j].profile.email != target.profile.email
    requires target.isPartner ==> rows[j].profile.partnerId != target.profile.id
    ensures rows[j] in AfterDelete(rows, target)
  {
    if target.isPartner {
      DeletePartnerCascades(rows, target);
    } else {
      DeleteOtherRemovesEmail(rows, target);
    }
  }

  /** Deleting the unique row `i` keeps an administrator, when it is not the last one. */
  lemma AdminSurvivesDelete(rows: seq<Account>, target: Clean, i: int)
    requires AdminsApart(rows) && HasAdmin(rows)
    requires OnlyAt(rows, HasEmail(target.profile.email), i) && target == CleanAccount(rows[i])
    requires rows[i].isAdmin == 1 ==> HasLeastOneAdmin(rows)
    ensures HasAdmin(AfterDelete(rows, target))
  {
    var j: int;
    if rows[i].isAdmin == 1 {
      var a, b :| 0 <= a < b < |rows| && rows[a].isAdmin == 1 && rows[b].isAdmin == 1;
      j := if a == i then b else a;
    } else {
      j :| 0 <= j < |rows| && rows[j].isAdmin == 1;
    }
    assert !HasEmail(target.profile.email)(rows[j]);
    SurvivesDelete(rows, target, j);
    var after := AfterDelete(rows, target);
    var k :| 0 <= k < |after| && after[k] == rows[j];
  }

  /** On a table where administrators are apart, the route never deletes the last administrator. */
  lemma DeleteKeepsAnAdmin(rows: seq<Account>, actor: Clean, email: string, cfg: Config)
    requires AdminsApart(rows) && HasAdmin(rows)
    ensures HasAdmin(DeletePlan(rows, actor, email, cfg).accounts)
  {
    var out := DeletePlan(rows, actor, email, cfg);
    var lookup := GetAccount(rows, email, None, true);
    if out.response.code == 202 {
      GetAccountFound(rows, email, None, true);
      var i :| OnlyAt(rows, HasEmail(email), i) && lookup.account == CleanAccount(rows[i]);
      AdminSurvivesDelete(rows, lookup.account, i);
    }
  }

  // ---------------------------------------------------------------------------
  // POST /

  /** The body of `POST /`; absent optional fields are "". */
  datatype CreateRequest = CreateRequest(accountType: string, name: string, email: string, partnerId: string,
                                         postalAddress: string, gsm: string, avatarUrl: string)

  predicate IsAccountType(t: string) {
    t == "admin" || t == "partner" || t == "structure"
  }

  /** `type === "structure" ? parseInt(req.body.partner_id) : 0` */
  function PartnerIdOf(t: string, text: string): Option<int> {
    if t == "structure" then ParseInt(text) else Some(0)
  }

  const WrongPartner := "Structure has wrong partner."
  const UnknownPartner := "Unknown partner."

  /** The partner checks as the source writes them: `partnerId < 1` and `partnerId > 0` are both false for NaN. */
  function PartnerCheckAsWritten(rows: seq<Account>, t: string, partnerId: Option<int>): Option<Response> {
    if t == "structure" && partnerId.Some? && partnerId.value < 1 then Some(Fail(400, WrongPartner))
    else if t == "structure" && partnerId.Some? && partnerId.value > 0 && |GetById(rows, partnerId.value)| < 1 then
      Some(Fail(400, UnknownPartner))
    else None
  }

  /** A structure whose `partner_id` is not a number passes both checks as written. */
  lemma PartnerCheckAsWrittenAcceptsNaN(rows: seq<Account>)
    ensures PartnerIdOf("structure", "abc") == None
    ensures PartnerCheckAsWritten(rows, "structure", PartnerIdOf("structure", "abc")) == None
  {
    ParseIntRejectsNonDigit("abc");
  }

  /** As written, a structure passes when its `partner_id` is not a number, or is a positive id of an existing account. */
  lemma PartnerCheckAsWrittenMeans(rows: seq<Account>, t: string, partnerId: Option<int>)
    ensures PartnerCheckAsWritten(rows, t, partnerId).None? <==> (t != "structure" || partnerId.None? ||
      (partnerId.value >= 1 && exists k :: 0 <= k < |rows| && rows[k].profile.id == partnerId.value))
  {
    if t == "structure" && partnerId.Some? && partnerId.value >= 1 {
      var p := GetById(rows, partnerId.value);
      if |p| >= 1 {
        assert p[0] in rows;
        var k :| 0 <= k < |rows| && rows[k] == p[0];
      }
    }
  }

  /** The partner checks with NaN refused like any id below 1. */
  function PartnerCheck(rows: seq<Account>, t: string, partnerId: Option<int>): (r: Option<Response>)
    ensures r.None? <==> (t != "structure" ||
      (partnerId.Some? && partnerId.value >= 1 && exists k :: 0 <= k < |rows| && rows[k].profile.id == partnerId.value))
  {
    if t == "structure" && (partnerId.None? || partnerId.value < 1) then Some(Fail(400, WrongPartner))
    else if t == "structure" && |GetById(rows, partnerId.value)| < 1 then
      Some(Fail(400, UnknownPartner))
    else
      (assert t == "structure" ==> exists k :: 0 <= k < |rows| && rows[k].profile.id == partnerId.value by {
         if t == "structure" {
           var p := GetById(rows, partnerId.value);
           assert p[0] in rows;
           var k :| 0 <= k < |rows| && rows[k] == p[0];
         }
       }
       None)
  }

  /** Both agree on every numeric `partner_id`; they differ only on NaN. */
  lemma PartnerCheckAgreesOnNumbers(rows: seq<Account>, t: string, partnerId: int)
    ensures PartnerCheck(rows, t, Some(partnerId)) == PartnerCheckAsWritten(rows, t, Some(partnerId))
  {
  }

  function NewAccountOf(req: CreateRequest): NewAccount {
    NewAccount(req.email, req.name, if req.accountType == "admin" then 1 else 0,
      PartnerIdOf(req.accountType, req.partnerId), Trim(req.postalAddress), Trim(req.gsm), req.avatarUrl)
  }

  /** The answer of the validation cascade of `POST /`, when one of its checks fails. */
  function CreateRefusal(rows: seq<Account>, actor: Clean, req: CreateRequest, svc: Services): Option<Response> {
    if !actor.isAdmin then Some(NotAllowed())
    else if !IsAccountType(req.accountType) then Some(Fail(400, "Bad account type."))
    else if PartnerCheckAsWritten(rows, req.accountType, PartnerIdOf(req.accountType, req.partnerId)).Some? then
      PartnerCheckAsWritten(rows, req.accountType, PartnerIdOf(req.accountType, req.partnerId))
    else if !ValidateEmail(req.email) then Some(Fail(400, "Bad email format."))
    else if !ValidateName(req.name) then Some(Fail(400, "Bad name format."))
    else if svc.accountExists(rows, req.email) then Some(Fail(400, "Account already exists with this email."))
    else if svc.nameExists(rows, req.name) then Some(Fail(400, "Display name already used for another account."))
    else None
  }

  function CreatePlan(tables: Tables, actor: Clean, req: CreateRequest, svc: Services): (Response, Tables) {
    var refusal := CreateRefusal(tables.accounts, actor, req, svc);
    if refusal.Some? then (refusal.value, tables)
    else
      var (created, after) := svc.createAccount(tables, NewAccountOf(req));
      (if created then Status(201) else Fail(500, "Unable to create this account."), after)
  }

  /** `POST /` with the account fields in the body, behind `authenticate`. */
  method CreateRoute(db: Db, auth: Auth, req: CreateRequest, svc: Services) returns (res: Response)
    modifies db
    ensures (res, db.Snapshot()) == CreatePlan(old(db.Snapshot()), auth.account, req, svc)
  {
    var actor := auth.account;
    if !actor.isAdmin {
      return NotAllowed();
    }
    if !IsAccountType(req.accountType) {
      return Fail(400, "Bad account type.");
    }
    var partnerId := PartnerIdOf(req.accountType, req.partnerId);
    var check := PartnerCheckAsWritten(db.accounts, req.accountType, partnerId);
    if check.Some? {
      return check.value;
    }
    if !ValidateEmail(req.email) {
      return Fail(400, "Bad email format.");
    }
    if !ValidateName(req.name) {
      return Fail(400, "Bad name format.");
    }
    if svc.accountExists(db.accounts, req.email) {
      return Fail(400, "Account already exists with this email.");
    }
    if svc.nameExists(db.accounts, req.name) {
      return Fail(400, "Display name already used for another account.");
    }
    var (created, after) := svc.createAccount(db.Snapshot(), NewAccountOf(req));
    db.Load(after);
    res := if created then Status(201) else Fail(500, "Unable to create this account.");
  }

  /**
   * Nothing changes before `createAccount` is called, and it is called only when the actor is an
   * administrator, the type is known, a structure's `partner_id` is either not a number or a
   * positive id of an existing account, the email and name are well formed, and neither is taken.
   */
  lemma CreateGuards(tables: Tables, actor: Clean, req: CreateRequest, svc: Services)
    ensures var (res, after) := CreatePlan(tables, actor, req, svc);
      && (res.code != 201 && res.code != 500 ==> after == tables)
      && (res.code == 201 || res.code == 500 <==>
            && actor.isAdmin && IsAccountType(req.accountType)
            && (req.accountType == "structure" ==>
                  || ParseInt(req.partnerId).None?
                  || exists p :: ParseInt(req.partnerId) == Some(p) && p >= 1
                                 && exists k :: 0 <= k < |tables.accounts| && tables.accounts[k].profile.id == p)
            && ValidateEmail(req.email) && ValidateName(req.name)
            && !svc.accountExists(tables.accounts, req.email) && !svc.nameExists(tables.accounts, req.name))
  {
    CreateRefusalMeans(tables.accounts, actor, req, svc);
  }

  /**
   * A non-administrator gets 403 and every check an administrator fails answers 400; the cascade
   * lets through exactly the well-formed, fresh requests, among them a structure whose
   * `partner_id` is not a number.
   */
  lemma CreateRefusalMeans(rows: seq<Account>, actor: Clean, req: CreateRequest, svc: Services)
    ensures var r := CreateRefusal(rows, actor, req, svc);
      && (!actor.isAdmin ==> r == Some(Fail(403, "Account not allowed.")))
      && (actor.isAdmin && r.Some? ==> r.value.code == 400)
      && (r.None? <==>
            && actor.isAdmin && IsAccountType(req.accountType)
            && (req.accountType == "structure" ==>
                  || ParseInt(req.partnerId).None?
                  || exists p :: ParseInt(req.partnerId) == Some(p) && p >= 1
                                 && exists k :: 0 <= k < |rows| && rows[k].profile.id == p)
            && ValidateEmail(req.email) && ValidateName(req.name)
            && !svc.accountExists(rows, req.email) && !svc.nameExists(rows, req.name))
  {
    var pid := PartnerIdOf(req.accountType, req.partnerId);
    PartnerCheckAsWrittenMeans(rows, req.accountType, pid);
    if req.accountType == "structure" && pid.Some? {
      assert ParseInt(req.partnerId) == Some(pid.value);
    }
  }

  /** As written, an administrator's request for a structure with `partner_id` "abc" reaches `createAccount`. */
  lemma CreateAcceptsNaNPartner(tables: Tables, actor: Clean, req: CreateRequest, svc: Services)
    requires actor.isAdmin && req.accountType == "structure" && req.partnerId == "abc"
    requires ValidateEmail(req.email) && ValidateName(req.name)
    requires !svc.accountExists(tables.accounts, req.email) && !svc.nameExists(tables.accounts, req.name)
    ensures var code := CreatePlan(tables, actor, req, svc).0.code;
      code == 201 || code == 500
  {
    assert ParseInt(req.partnerId).None? by {
      PartnerCheckAsWrittenAcceptsNaN(tables.accounts);
    }
    CreateGuards(tables, actor, req, svc);
  }

  /**
   * For an administrator the checks run in order, each answering only when every earlier one
   * passed: the type, the partner, the email format, the name format, the email in use, and the
   * name in use.
   */
  lemma CreateCheckOrder(tables: Tables, actor: Clean, req: CreateRequest, svc: Services)
    requires actor.isAdmin
    ensures var res := CreatePlan(tables, actor, req, svc);
      var check := PartnerCheckAsWritten(tables.accounts, req.accountType, PartnerIdOf(req.accountType, req.partnerId));
      && (!IsAccountType(req.accountType) ==> res == (Fail(400, "Bad account type."), tables))
      && (IsAccountType(req.accountType) && check.Some? ==>
            res == (check.value, tables) && check.value.code == 400)
      && (IsAccountType(req.accountType) && check.None? ==>
            && (!ValidateEmail(req.email) ==> res == (Fail(400, "Bad email format."), tables))
            && (ValidateEmail(req.email) && !ValidateName(req.name) ==> res == (Fail(400, "Bad name format."), tables))
            && (ValidateEmail(req.email) && ValidateName(req.name) ==>
                  && (svc.accountExists(tables.accounts, req.email) ==>
                        res == (Fail(400, "Account already exists with this email."), tables))
                  && (!svc.accountExists(tables.accounts, req.email) && svc.nameExists(tables.accounts, req.name) ==>
                        res == (Fail(400, "Display name already used for another account."), tables))))
  {
  }

  /** A non-administrator is refused before anything else is looked at. */
  lemma CreateByNonAdminRefused(tables: Tables, actor: Clean, req: CreateRequest, svc: Services)
    requires !actor.isAdmin
    ensures CreatePlan(tables, actor, req, svc) == (Fail(403, "Account not allowed."), tables)
  {
  }

  // ---------------------------------------------------------------------------
  // POST /selfactivation

  function SelfActivationPlan(rows: seq<Account>, email: string, token: string, svc: Services): Outcome {
    match GetAccount(rows, email, None, true)
    case Failure(code, message) => Outcome(Fail(code, message), rows)
    case Found(account) =>
      if token != account.profile.activationToken then Outcome(Fail(403, "Bad security token."), rows)
      else
        var (ok, after) := svc.activate(rows, email, true);
        Outcome(Done(ok), after)
  }

  /** `POST /selfactivation` with body `{ email, token }`; no authentication. */
  method SelfActivation(db: Db, email: string, token: string, svc: Services) returns (res: Response)
    modifies db`accounts
    ensures Outcome(res, db.accounts) == SelfActivationPlan(old(db.accounts), email, token, svc)
  {
    var lookup := GetAccount(db.accounts, email, None, true);
    if lookup.Failure? {
      return Fail(lookup.code, lookup.message);
    }
    if token != lookup.account.profile.activationToken {
      return Fail(403, "Bad security token.");
    }
    var (ok, after) := svc.activate(db.accounts, email, true);
    db.accounts := after;
    res := Done(ok);
  }

  /**
   * `activate` is reached exactly when one row has the email, inactive or not, and the supplied
   * token equals its activation token; otherwise nothing changes.
   */
  lemma SelfActivationNeedsToken(rows: seq<Account>, email: string, token: string, svc: Services)
    ensures var out := SelfActivationPlan(rows, email, token, svc);
      && (out.response.code == 204 || out.response.code == 500 <==>
            exists i :: OnlyAt(rows, HasEmail(email), i) && rows[i].profile.activationToken == token)
      && (out.response.code != 204 && out.response.code != 500 ==> out.accounts == rows)
  {
    var out := SelfActivationPlan(rows, email, token, svc);
    GetAccountCascade(rows, email, None, true);
    if out.response.code == 204 || out.response.code == 500 {
      var i :| OnlyAt(rows, HasEmail(email), i);
    }
  }

  // ---------------------------------------------------------------------------
  // POST /activate

  /** `parseInt(active)`, with every value other than 1 taken as 0. */
  predicate ActivationState(active: string) {
    ParseInt(active) == Some(1)
  }

  /** A decimal integer activates exactly when it is 1. */
  lemma ActivationStateOfNumber(n: int)
    ensures ActivationState(IntToString(n)) <==> n == 1
  {
    ParseIntOfIntToString(n);
  }

  function ActivatePlan(rows: seq<Account>, actor: Clean, email: string, active: string, svc: Services): Outcome {
    if !actor.isAdmin then Outcome(NotAllowed(), rows)
    else if email == actor.profile.email then Outcome(Fail(400, "Unable to change your account activation state."), rows)
    else
      match GetAccount(rows, email, None, true)
      case Failure(code, message) => Outcome(Fail(code, message), rows)
      case Found(_) =>
        var (ok, after) := svc.activate(rows, email, ActivationState(active));
        Outcome(Done(ok), after)
  }

  /** `POST /activate` with body `{ email, active }` (the value of `active` as text), behind `authenticate`. */
  method ActivateRoute(db: Db, auth: Auth, email: string, active: string, svc: Services) returns (res: Response)
    modifies db`accounts
    ensures Outcome(res, db.accounts) == ActivatePlan(old(db.accounts), auth.account, email, active, svc)
  {
    var actor := auth.account;
    if !actor.isAdmin {
      return NotAllowed();
    }
    if email == actor.profile.email {
      return Fail(400, "Unable to change your account activation state.");
    }
    var lookup := GetAccount(db.accounts, email, None, true);
    if lookup.Failure? {
      return Fail(lookup.code, lookup.message);
    }
    var activationState := ParseInt(active);
    if activationState != Some(1) {
      activationState := Some(0);
    }
    var (ok, after) := svc.activate(db.accounts, email, activationState == Some(1));
    db.accounts := after;
    res := Done(ok);
  }

  /**
   * An administrator cannot change their own activation; for anyone else `activate` receives true
   * exactly when `active` parses to 1.
   */
  lemma ActivateGuards(rows: seq<Account>, actor: Clean, email: string, active: string, svc: Services)
    requires actor.isAdmin
    ensures email == actor.profile.email ==>
      ActivatePlan(rows, actor, email, active, svc) == Outcome(Fail(400, "Unable to change your account activation state."), rows)
    ensures email != actor.profile.email && (exists i :: OnlyAt(rows, HasEmail(email), i)) ==>
      ActivatePlan(rows, actor, email, active, svc) ==
        var (ok, after) := svc.activate(rows, email, ParseInt(active) == Some(1)); Outcome(Done(ok), after)
  {
    GetAccountCascade(rows, email, None, true);
  }

  // ---------------------------------------------------------------------------
  // POST /login

  /** `(account) => verifyHashedPassword(password, account.password)` */
  function PasswordMatches(svc: Services, password: string): Account -> bool {
    (a: Account) => svc.verifyPassword(password, a.profile.password)
  }

  function LoginPlan(rows: seq<Account>, email: string, password: string, svc: Services, cfg: Config,
                     random: seq<byte>, now: int): Outcome
  {
    match GetAccount(rows, email, Some(PasswordMatches(svc, password)), false)
    case Failure(code, message) => Outcome(Fail(code, message), rows)
    case Found(account) =>
      var secret := HexEncode(random);
      var issuedRows := AfterIssue(rows, account.profile.email, AccessToken, secret);
      var jwtToken := svc.sign(Claims(account.profile.email, secret, now + cfg.jwtExpire));
      if jwtToken == "" then Outcome(Status(500), issuedRows)
      else if !CanIssue(issuedRows, email) then Outcome(Status(500), issuedRows)
      else
        Outcome(Response(200, Session(svc.format(account), Some(jwtToken), now + cfg.jwtExpire)),
          AfterClear(issuedRows, email, PasswordLostToken))
  }

  /** `POST /login` with body `{ email, password }`; no authentication. */
  method Login(db: Db, email: string, password: string, svc: Services, cfg: Config, random: seq<byte>, now: int)
    returns (res: Response)
    requires |random| == 64
    modifies db`accounts
    ensures Outcome(res, db.accounts) == LoginPlan(old(db.accounts), email, password, svc, cfg, random, now)
  {
    var lookup := GetAccount(db.accounts, email, Some(PasswordMatches(svc, password)), false);
    if lookup.Failure? {
      return Fail(lookup.code, lookup.message);
    }
    var account := lookup.account;
    FoundWithCheckCanIssue(db.accounts, email, PasswordMatches(svc, password));
    GetAccountFound(db.accounts, email, None, false);
    var data := GenerateToken(db, account.profile.email, AccessToken, random, svc.sign, now, cfg.jwtExpire);
    if data.jwtToken == Some("") {
      return Status(500);
    }
    var cleared := ClearToken(db, email, PasswordLostToken);
    if !cleared {
      return Status(500);
    }
    res := Response(200, Session(svc.format(account), data.jwtToken, data.expires));
  }

  /**
   * A successful login needs the unique active account with that email and a verified password;
   * it leaves a fresh hex access token and an empty password-lost token on that row, and the
   * response carries the signed envelope.
   */
  lemma LoginIssuesAndClears(rows: seq<Account>, email: string, password: string, svc: Services, cfg: Config,
                             random: seq<byte>, now: int)
    requires |random| == 64
    requires LoginPlan(rows, email, password, svc, cfg, random, now).response.code == 200
    ensures var out := LoginPlan(rows, email, password, svc, cfg, random, now);
      exists i :: && OnlyAt(rows, HasEmail(email), i) && rows[i].active != 0
                  && svc.verifyPassword(password, rows[i].profile.password)
                  && |out.accounts| == |rows|
                  && out.accounts[i].profile.accessToken == HexEncode(random)
                  && out.accounts[i].profile.passwordlostToken == ""
                  && out.accounts[i].profile.email == email && out.accounts[i].active == rows[i].active
                  && (forall j :: 0 <= j < |rows| && j != i ==> out.accounts[j] == rows[j])
  {
    GetAccountCascade(rows, email, Some(PasswordMatches(svc, password)), false);
    GetAccountFound(rows, email, None, false);
    var i :| OnlyAt(rows, HasEmail(email), i);
    IssueThenClear(rows, email, AccessToken, PasswordLostToken, HexEncode(random), i);
  }

  /** Issuing one token and then clearing another touches only those two slots of the account's own row. */
  lemma IssueThenClear(rows: seq<Account>, email: string, issueSlot: Slot, clearSlot: Slot, secret: string, i: int)
    requires issueSlot != clearSlot
    requires OnlyAt(rows, HasEmail(email), i) && rows[i].active != 0
    ensures var out := AfterClear(AfterIssue(rows, email, issueSlot, secret), email, clearSlot);
      && |out| == |rows|
      && SlotOf(out[i].profile, issueSlot) == secret && SlotOf(out[i].profile, clearSlot) == ""
      && out[i].profile.email == email && out[i].active == rows[i].active
      && (forall j :: 0 <= j < |rows| && j != i ==> out[j] == rows[j])
  {
    CanIssueMeans(rows, email);
    var issued := UpdateSlot(rows, email, issueSlot, secret);
    UpdateSlotRows(rows, email, issueSlot, secret);
    UpdateSlotKeepsOnlyAt(rows, email, email, issueSlot, secret, i);
    assert issued[i].active == rows[i].active;
    CanIssueMeans(issued, email);
    UpdateSlotRows(issued, email, clearSlot, "");
  }

  /** What the login lookup guarantees the two token steps after it. */
  lemma LoginLookupIssuable(rows: seq<Account>, email: string, password: string, svc: Services, secret: string)
    requires GetAccount(rows, email, Some(PasswordMatches(svc, password)), false).Found?
    ensures GetAccount(rows, email, Some(PasswordMatches(svc, password)), false).account.profile.email == email
    ensures CanIssue(rows, email)
    ensures CanIssue(AfterIssue(rows, email, AccessToken, secret), email)
  {
    FoundWithCheckCanIssue(rows, email, PasswordMatches(svc, password));
    GetAccountFound(rows, email, None, false);
    IssueKeepsCanIssue(rows, email, AccessToken, secret);
  }

  /** After the login lookup, the password-lost clearing never fails: its 500 is only for an empty signature. */
  lemma LoginClearNeverFails(rows: seq<Account>, email: string, password: string, svc: Services, cfg: Config,
                             random: seq<byte>, now: int)
    requires |random| == 64
    requires GetAccount(rows, email, Some(PasswordMatches(svc, password)), false).Found?
    ensures var out := LoginPlan(rows, email, password, svc, cfg, random, now);
      out.response.code == 500 <==> svc.sign(Claims(email, HexEncode(random), now + cfg.jwtExpire)) == ""
  {
    LoginLookupIssuable(rows, email, password, svc, HexEncode(random));
  }

  // ---------------------------------------------------------------------------
  // GET /logout and POST /logout

  function LogoutSelfPlan(rows: seq<Account>, actor: Clean): Outcome {
    Outcome(Done(CanIssue(rows, actor.profile.email)), AfterClear(rows, actor.profile.email, AccessToken))
  }

  /** `GET /logout`, behind `authenticate`: clears the caller's access token. */
  method LogoutSelf(db: Db, auth: Auth) returns (res: Response)
    modifies db`accounts
    ensures Outcome(res, db.accounts) == LogoutSelfPlan(old(db.accounts), auth.account)
  {
    var cleared := ClearToken(db, auth.account.profile.email, AccessToken);
    res := Done(cleared);
  }

  function LogoutOtherPlan(rows: seq<Account>, actor: Clean, email: string): Outcome {
    if !actor.isAdmin then Outcome(NotAllowed(), rows)
    else
      match GetAccount(rows, email, None, false)
      case Failure(code, message) => Outcome(Fail(code, message), rows)
      case Found(account) =>
        Outcome(Done(CanIssue(rows, account.profile.email)), AfterClear(rows, account.profile.email, AccessToken))
  }

  /** `POST /logout` with body `{ email }`, behind `authenticate`: an administrator ends another session. */
  method LogoutOther(db: Db, auth: Auth, email: string) returns (res: Response)
    modifies db`accounts
    ensures Outcome(res, db.accounts) == LogoutOtherPlan(old(db.accounts), auth.account, email)
  {
    if !auth.account.isAdmin {
      return NotAllowed();
    }
    var lookup := GetAccount(db.accounts, email, None, false);
    if lookup.Failure? {
      return Fail(lookup.code, lookup.message);
    }
    var cleared := ClearToken(db, lookup.account.profile.email, AccessToken);
    res := Done(cleared);
  }

  /** A logout by an administrator of an active account empties exactly that row's access token. */
  lemma LogoutOtherClears(rows: seq<Account>, actor: Clean, email: string, i: int)
    requires actor.isAdmin && OnlyAt(rows, HasEmail(email), i) && rows[i].active != 0
    ensures var out := LogoutOtherPlan(rows, actor, email);
      && out.response == Status(204)
      && out.accounts[i].profile.accessToken == ""
      && (forall j :: 0 <= j < |rows| && j != i ==> out.accounts[j] == rows[j])
  {
    CanIssueMeans(rows, email);
    GetAccountFound(rows, email, None, false);
    ClearedSlotIsEmpty(rows, email, AccessToken, i);
    UpdateSlotRows(rows, email, AccessToken, "");
  }

  // ---------------------------------------------------------------------------
  // POST /refresh

  function RefreshPlan(rows: seq<Account>, auth: Auth, svc: Services, cfg: Config, random: seq<byte>, now: int): Outcome {
    var verified := svc.verify(auth.token);
    if !verified.Valid? then Outcome(NotAllowed(), rows)
    else
      match RefreshLookup(rows, verified, AccessToken)
      case Failure(code, message) => Outcome(Fail(code, message), rows)
      case Found(account) =>
        var secret := HexEncode(random);
        Outcome(
          Response(200, Refreshed(SecureAccountData(account, svc.gravatar),
            Some(svc.sign(Claims(verified.email, secret, now + cfg.jwtExpire))), now + cfg.jwtExpire)),
          UpdateSlot(rows, verified.email, AccessToken, secret))
  }

  /** `POST /refresh`, behind `authenticate`: rotates the access token of the presented envelope. */
  method Refresh(db: Db, auth: Auth, svc: Services, cfg: Config, random: seq<byte>, now: int) returns (res: Response)
    requires |random| == 64
    modifies db`accounts
    ensures Outcome(res, db.accounts) == RefreshPlan(old(db.accounts), auth, svc, cfg, random, now)
  {
    var verified := svc.verify(auth.token);
    ghost var rows := db.accounts;
    var outcome := RefreshToken(db, verified, AccessToken, random, svc.sign, svc.gravatar, now, cfg.jwtExpire);
    match outcome
    case Resolved(account, token, expires) =>
      res := Response(200, Refreshed(account, token, expires));
      assert verified.Valid? && RefreshLookup(rows, verified, AccessToken).Found?;
    case AccountRejected(code, message) =>
      res := Fail(code, message);
      assert verified.Valid? && RefreshLookup(rows, verified, AccessToken).Failure?;
    case Rejected(_) =>
      res := NotAllowed();
      assert !verified.Valid?;
  }

  /**
   * A refresh succeeds only for the unique active account holding the envelope's secret as its
   * access token, and afterwards that secret is refused (unless the fresh draw repeated it).
   */
  lemma RefreshRotates(rows: seq<Account>, auth: Auth, svc: Services, cfg: Config, random: seq<byte>, now: int)
    requires RefreshPlan(rows, auth, svc, cfg, random, now).response.code == 200
    ensures var v := svc.verify(auth.token);
      var after := RefreshPlan(rows, auth, svc, cfg, random, now).accounts;
      && v.Valid?
      && (exists i :: OnlyAt(rows, HasEmail(v.email), i) && rows[i].active != 0 && rows[i].profile.accessToken == v.token)
      && (HexEncode(random) != v.token ==>
            GetAccount(after, v.email, Some(SlotMatches(AccessToken, v.token)), false) == Unauthorized)
  {
    var v := svc.verify(auth.token);
    GetAccountCascade(rows, v.email, Some(SlotMatches(AccessToken, v.token)), false);
    var i :| OnlyAt(rows, HasEmail(v.email), i);
    if HexEncode(random) != v.token {
      RotationInvalidatesOldSecret(rows, v.email, v.token, AccessToken, HexEncode(random), i);
    }
  }

  // ---------------------------------------------------------------------------
  // POST /passwordlost

  /** A promise field that is `undefined` renders as "undefined" inside a template literal. */
  function TemplateText(v: Option<string>): string {
    if v.Some? then v.value else "undefined"
  }

  /** The link as written: the `token` field of what `generateToken` returned. */
  function ResetLinkAsWritten(base: string, issued: Issued): string {
    base + "?token=" + TemplateText(issued.token)
  }

  /** When the token is issued, the written link carries "undefined", never the stored secret. */
  lemma ResetLinkAsWrittenIsUndefined(base: string, jwtToken: string, expires: int, secret: string)
    requires |secret| == 128
    ensures ResetLinkAsWritten(base, Issued(None, Some(jwtToken), expires)) == base + "?token=undefined"
    ensures ResetLinkAsWritten(base, Issued(None, Some(jwtToken), expires)) != base + "?token=" + secret
  {
    assert |base + "?token=undefined"| == |base| + 16;
  }

  /** The link carrying the secret stored in the password-lost slot, which `newpassword` compares against. */
  function ResetLink(base: string, secret: string): string {
    base + "?token=" + secret
  }

  /** The part after `?token=` of a reset link. */
  function LinkToken(base: string, link: string): string
    requires |link| >= |base| + 7
  {
    link[|base| + 7..]
  }

  lemma ResetLinkToken(base: string, secret: string)
    ensures LinkToken(base, ResetLink(base, secret)) == secret
  {
  }

  datatype PasswordLostOutcome = PasswordLostOutcome(response: Response, accounts: seq<Account>, mail: Option<LinkMail>)

  function PasswordLostPlan(rows: seq<Account>, email: string, svc: Services, cfg: Config,
                            random: seq<byte>, now: int): PasswordLostOutcome
  {
    match GetAccount(rows, email, None, false)
    case Failure(code, message) => PasswordLostOutcome(Fail(code, message), rows, None)
    case Found(account) =>
      var secret := HexEncode(random);
      var issuedRows := AfterIssue(rows, email, PasswordLostToken, secret);
      var issued := Issued(None, Some(svc.sign(Claims(email, secret, now + cfg.jwtExpire))), now + cfg.jwtExpire);
      var mail := LinkMail("newpassword-link.html", account.profile.email, account.profile.name,
                           account.profile.email, ResetLinkAsWritten(cfg.newPasswordLink, issued));
      match svc.sendMail(mail)
      case Some(error) => PasswordLostOutcome(Fail(error.code, error.message), issuedRows, Some(mail))
      case None =>
        PasswordLostOutcome(Done(CanIssue(issuedRows, account.profile.email)),
          AfterClear(issuedRows, account.profile.email, AccessToken), Some(mail))
  }

  /** `POST /passwordlost` with body `{ email }`; no authentication. */
  method PasswordLost(db: Db, email: string, svc: Services, cfg: Config, random: seq<byte>, now: int)
    returns (res: Response, mail: Option<LinkMail>)
    requires |random| == 64
    modifies db`accounts
    ensures PasswordLostOutcome(res, db.accounts, mail) == PasswordLostPlan(old(db.accounts), email, svc, cfg, random, now)
  {
    mail := None;
    var lookup := GetAccount(db.accounts, email, None, false);
    if lookup.Failure? {
      return Fail(lookup.code, lookup.message), mail;
    }
    var account := lookup.account;
    var issued := GenerateToken(db, email, PasswordLostToken, random, svc.sign, now, cfg.jwtExpire);
    var m := LinkMail("newpassword-link.html", account.profile.email, account.profile.name,
                      account.profile.email, ResetLinkAsWritten(cfg.newPasswordLink, issued));
    mail := Some(m);
    var error := svc.sendMail(m);
    if error.Some? {
      return Fail(error.value.code, error.value.message), mail;
    }
    var cleared := ClearToken(db, account.profile.email, AccessToken);
    res := Done(cleared);
  }

  /**
   * `passwordlost` touches the table only for the unique active account with the email: its
   * password-lost slot receives the fresh secret and, once the mail is sent, its access token is
   * emptied and the answer is 204; no other row changes. The mailed link carries "undefined".
   */
  lemma PasswordLostGuards(rows: seq<Account>, email: string, svc: Services, cfg: Config, random: seq<byte>, now: int)
    requires |random| == 64
    ensures var out := PasswordLostPlan(rows, email, svc, cfg, random, now);
      && (!CanIssue(rows, email) ==> out.accounts == rows && out.mail.None? && out.response.code != 204)
      && (out.mail.Some? ==> out.mail.value.to == email && out.mail.value.link == cfg.newPasswordLink + "?token=undefined")
      && (CanIssue(rows, email) ==>
            && out.mail.Some?
            && exists i :: && OnlyAt(rows, HasEmail(email), i) && rows[i].active != 0
                           && |out.accounts| == |rows|
                           && out.accounts[i].profile.passwordlostToken == HexEncode(random)
                           && (forall j :: 0 <= j < |rows| && j != i ==> out.accounts[j] == rows[j])
                           && (svc.sendMail(out.mail.value).None? ==>
                                 out.response == Status(204) && out.accounts[i].profile.accessToken == ""))
  {
    var out := PasswordLostPlan(rows, email, svc, cfg, random, now);
    if !CanIssue(rows, email) {
      return;
    }
    CanIssueMeans(rows, email);
    var i :| OnlyAt(rows, HasEmail(email), i) && rows[i].active != 0;
    GetAccountFound(rows, email, None, false);
    var account := GetAccount(rows, email, None, false).account;
    var secret := HexEncode(random);
    var issuedRows := AfterIssue(rows, email, PasswordLostToken, secret);
    var issued := Issued(None, Some(svc.sign(Claims(email, secret, now + cfg.jwtExpire))), now + cfg.jwtExpire);
    var mail := LinkMail("newpassword-link.html", account.profile.email, account.profile.name,
                         account.profile.email, ResetLinkAsWritten(cfg.newPasswordLink, issued));
    assert out.mail == Some(mail);
    assert && |issuedRows| == |rows| && issuedRows[i].profile.passwordlostToken == secret
           && (forall j :: 0 <= j < |rows| && j != i ==> issuedRows[j] == rows[j]) by {
      UpdateSlotRows(rows, email, PasswordLostToken, secret);
    }
    match svc.sendMail(mail)
    case Some(_) =>
      assert out.accounts == issuedRows;
    case None =>
      assert out.response == Status(204) by {
        IssueKeepsCanIssue(rows, email, PasswordLostToken, secret);
      }
      IssueThenClear(rows, email, PasswordLostToken, AccessToken, secret, i);
  }


  // ---------------------------------------------------------------------------
  // POST /newpassword

  /** The token check as written: `token !== account.passwordlost_token` refuses. */
  predicate ResetTokenAcceptedAsWritten(supplied: string, stored: string) {
    supplied == stored
  }

  /**
   * As written, once a login has emptied the password-lost slot, the empty token passes the check:
   * anyone who knows an active account's email can then set its password.
   */
  lemma EmptyTokenAcceptedAfterLogin(rows: seq<Account>, email: string, password: string, svc: Services,
                                     cfg: Config, random: seq<byte>, now: int)
    requires |random| == 64
    requires LoginPlan(rows, email, password, svc, cfg, random, now).response.code == 200
    ensures var after := LoginPlan(rows, email, password, svc, cfg, random, now).accounts;
      exists i :: OnlyAt(after, HasEmail(email), i) && after[i].active != 0
                  && ResetTokenAcceptedAsWritten("", after[i].profile.passwordlostToken)
  {
    LoginIssuesAndClears(rows, email, password, svc, cfg, random, now);
    var after := LoginPlan(rows, email, password, svc, cfg, random, now).accounts;
    var i :| && OnlyAt(rows, HasEmail(email), i) && rows[i].active != 0
             && |after| == |rows|
             && after[i].profile.passwordlostToken == ""
             && after[i].profile.email == email && after[i].active == rows[i].active
             && (forall j :: 0 <= j < |rows| && j != i ==> after[j] == rows[j]);
    assert OnlyAt(after, HasEmail(email), i);
  }

  /** As written, right after a successful login, `newpassword` with the token "" changes that account's password. */
  lemma EmptyTokenChangesPasswordAfterLogin(rows: seq<Account>, email: string, password: string, svc: Services,
                                            cfg: Config, random: seq<byte>, now: int, newPassword: string)
    requires |random| == 64
    requires LoginPlan(rows, email, password, svc, cfg, random, now).response.code == 200
    requires ValidatePassword(newPassword)
    ensures var after := LoginPlan(rows, email, password, svc, cfg, random, now).accounts;
      var code := NewPasswordPlan(after, email, "", newPassword, svc).response.code;
      code == 204 || code == 500
  {
    EmptyTokenAcceptedAfterLogin(rows, email, password, svc, cfg, random, now);
    NewPasswordGuards(LoginPlan(rows, email, password, svc, cfg, random, now).accounts, email, "", newPassword, svc);
  }

  /** The token check with an empty slot meaning "no reset pending". */
  predicate ResetTokenAccepted(supplied: string, stored: string) {
    stored != "" && supplied == stored
  }

  /** The corrected check refuses every token when no reset is pending, and accepts the mailed secret. */
  lemma ResetTokenAcceptedMeans(supplied: string, stored: string, base: string)
    ensures stored == "" ==> !ResetTokenAccepted(supplied, stored)
    ensures stored != "" ==> ResetTokenAccepted(LinkToken(base, ResetLink(base, stored)), stored)
    ensures ResetTokenAccepted(supplied, stored) ==> ResetTokenAcceptedAsWritten(supplied, stored)
  {
  }

  /** The password change shared by `newpassword`, `changepassword` and `resetpassword`: change, then clear the access token. */
  function ChangeThenClear(rows: seq<Account>, email: string, password: string, svc: Services): Outcome {
    var (changed, after) := svc.changePassword(rows, email, password);
    if !changed then Outcome(Status(500), after)
    else Outcome(Done(CanIssue(after, email)), AfterClear(after, email, AccessToken))
  }

  function NewPasswordPlan(rows: seq<Account>, email: string, token: string, password: string, svc: Services): Outcome {
    match GetAccount(rows, email, None, false)
    case Failure(code, message) => Outcome(Fail(code, message), rows)
    case Found(account) =>
      if !ResetTokenAcceptedAsWritten(token, account.profile.passwordlostToken) then Outcome(Fail(403, "Bad security token."), rows)
      else if !ValidatePassword(password) then Outcome(Fail(400, "Bad password format."), rows)
      else ChangeThenClear(rows, account.profile.email, password, svc)
  }

  /** The shared tail of the three password routes: `changePassword`, then `clearToken`. */
  method ChangeAndClear(db: Db, email: string, password: string, svc: Services) returns (res: Response)
    modifies db`accounts
    ensures Outcome(res, db.accounts) == ChangeThenClear(old(db.accounts), email, password, svc)
  {
    var (changed, after) := svc.changePassword(db.accounts, email, password);
    db.accounts := after;
    if !changed {
      return Status(500);
    }
    var cleared := ClearToken(db, email, AccessToken);
    res := Done(cleared);
  }

  /** `POST /newpassword` with body `{ email, token, password }`; no authentication. */
  method NewPasswordRoute(db: Db, email: string, token: string, password: string, svc: Services) returns (res: Response)
    modifies db`accounts
    ensures Outcome(res, db.accounts) == NewPasswordPlan(old(db.accounts), email, token, password, svc)
  {
    var lookup := GetAccount(db.accounts, email, None, false);
    if lookup.Failure? {
      return Fail(lookup.code, lookup.message);
    }
    var account := lookup.account;
    if !ResetTokenAcceptedAsWritten(token, account.profile.passwordlostToken) {
      return Fail(403, "Bad security token.");
    }
    if !ValidatePassword(password) {
      return Fail(400, "Bad password format.");
    }
    res := ChangeAndClear(db, account.profile.email, password, svc);
  }

  /**
   * A successful change leaves the account's access token empty; any answer other than
   * the two of `ChangeThenClear` leaves the table as it was.
   */
  lemma ChangeThenClearEmptiesAccessToken(rows: seq<Account>, email: string, password: string, svc: Services)
    requires ChangeThenClear(rows, email, password, svc).response.code == 204
    ensures var after := svc.changePassword(rows, email, password).1;
      && svc.changePassword(rows, email, password).0
      && forall i :: OnlyAt(after, HasEmail(email), i) ==>
           ChangeThenClear(rows, email, password, svc).accounts[i].profile.accessToken == ""
  {
    var after := svc.changePassword(rows, email, password).1;
    forall i | OnlyAt(after, HasEmail(email), i)
      ensures ChangeThenClear(rows, email, password, svc).accounts[i].profile.accessToken == ""
    {
      CanIssueMeans(after, email);
      ClearedSlotIsEmpty(after, email, AccessToken, i);
    }
  }

  /**
   * `newpassword` reaches `changePassword` exactly for the unique active account whose password-lost
   * slot equals the supplied token (an empty slot and an empty token included), with a password of
   * the default strength.
   */
  lemma NewPasswordGuards(rows: seq<Account>, email: string, token: string, password: string, svc: Services)
    ensures var out := NewPasswordPlan(rows, email, token, password, svc);
      && (out.response.code == 204 || out.response.code == 500 <==>
            && ValidatePassword(password)
            && exists i :: && OnlyAt(rows, HasEmail(email), i) && rows[i].active != 0
                           && rows[i].profile.passwordlostToken == token)
      && (out.response.code != 204 && out.response.code != 500 ==> out.accounts == rows)
  {
    var lookup := GetAccount(rows, email, None, false);
    GetAccountCascade(rows, email, None, false);
    if lookup.Found? {
      GetAccountFound(rows, email, None, false);
      var i :| OnlyAt(rows, HasEmail(email), i) && lookup.account == CleanAccount(rows[i]);
      var stored := rows[i].profile.passwordlostToken;
      assert lookup.account.profile.passwordlostToken == stored;
      if ResetTokenAcceptedAsWritten(token, stored) && ValidatePassword(password) {
        ChangeThenClearCodes(rows, lookup.account.profile.email, password, svc);
      }
    }
  }

  /** `ChangeThenClear` answers 204 or 500, never a refusal. */
  lemma ChangeThenClearCodes(rows: seq<Account>, email: string, password: string, svc: Services)
    ensures var code := ChangeThenClear(rows, email, password, svc).response.code;
      code == 204 || code == 500
  {
  }

  // ---------------------------------------------------------------------------
  // POST /changepassword and POST /resetpassword

  function ChangePasswordPlan(rows: seq<Account>, actor: Clean, email: string, password: string, svc: Services): Outcome {
    match GetAccount(rows, email, None, false)
    case Failure(code, message) => Outcome(Fail(code, message), rows)
    case Found(account) =>
      if actor.profile.email == account.profile.email || actor.isAdmin then
        if !ValidatePassword(password) then Outcome(Fail(400, "Bad password format."), rows)
        else ChangeThenClear(rows, account.profile.email, password, svc)
      else Outcome(NotAllowed(), rows)
  }

  /** `POST /changepassword` with body `{ email, password }`, behind `authenticate`. */
  method ChangePasswordRoute(db: Db, auth: Auth, email: string, password: string, svc: Services) returns (res: Response)
    modifies db`accounts
    ensures Outcome(res, db.accounts) == ChangePasswordPlan(old(db.accounts), auth.account, email, password, svc)
  {
    var lookup := GetAccount(db.accounts, email, None, false);
    if lookup.Failure? {
      return Fail(lookup.code, lookup.message);
    }
    var account := lookup.account;
    var actor := auth.account;
    if actor.profile.email == account.profile.email || actor.isAdmin {
      if !ValidatePassword(password) {
        return Fail(400, "Bad password format.");
      }
      res := ChangeAndClear(db, account.profile.email, password, svc);
      return;
    }
    res := NotAllowed();
  }

  /**
   * The lookup runs before the authorization check, so an unknown or inactive email answers 404
   * or 403 even to a caller who may not change it; past the lookup only the owner or an
   * administrator reaches `changePassword`.
   */
  lemma ChangePasswordGuards(rows: seq<Account>, actor: Clean, email: string, password: string, svc: Services)
    ensures !(exists i :: OnlyAt(rows, HasEmail(email), i)) ==>
      ChangePasswordPlan(rows, actor, email, password, svc) == Outcome(Fail(404, "Account not found."), rows)
    ensures var out := ChangePasswordPlan(rows, actor, email, password, svc);
      (out.response.code == 204 || out.response.code == 500) ==>
        (actor.profile.email == email || actor.isAdmin) && ValidatePassword(password)
  {
    GetAccountCascade(rows, email, None, false);
    if GetAccount(rows, email, None, false).Found? {
      GetAccountFound(rows, email, None, false);
    }
  }

  function ResetPasswordPlan(rows: seq<Account>, actor: Clean, email: string, stream: seq<byte>, svc: Services): Outcome
    requires 16 <= |Kept(stream)|
  {
    match GetAccount(rows, email, None, false)
    case Failure(code, message) => Outcome(Fail(code, message), rows)
    case Found(account) =>
      if actor.isAdmin then
        var newPassword := Kept(stream)[..16];
        var out := ChangeThenClear(rows, account.profile.email, newPassword, svc);
        if out.response.code == 204 then Outcome(Response(200, NewPassword(account.profile.email, newPassword)), out.accounts)
        else out
      else Outcome(NotAllowed(), rows)
  }

  /**
   * `POST /resetpassword` with body `{ email }`, behind `authenticate`: an administrator sets a
   * generated 16-character password. The random bytes are `stream`, long enough to yield 16
   * allowed characters, as the source's endless random source always is.
   */
  method ResetPasswordRoute(db: Db, auth: Auth, email: string, stream: seq<byte>, svc: Services) returns (res: Response)
    requires 16 <= |Kept(stream)|
    modifies db`accounts
    ensures Outcome(res, db.accounts) == ResetPasswordPlan(old(db.accounts), auth.account, email, stream, svc)
  {
    var lookup := GetAccount(db.accounts, email, None, false);
    if lookup.Failure? {
      return Fail(lookup.code, lookup.message);
    }
    var account := lookup.account;
    if auth.account.isAdmin {
      var generated := GeneratePassword(16, stream);
      var newPassword := generated.value;
      var (changed, after) := svc.changePassword(db.accounts, account.profile.email, newPassword);
      db.accounts := after;
      if !changed {
        return Status(500);
      }
      var cleared := ClearToken(db, account.profile.email, AccessToken);
      if !cleared {
        return Status(500);
      }
      return Response(200, NewPassword(account.profile.email, newPassword));
    }
    res := NotAllowed();
  }

  /**
   * Only an administrator resets: anyone else leaves the table as it was. The password handed
   * back has 16 allowed characters, it is the one `changePassword` stored, and the account's
   * access token is then empty.
   */
  lemma ResetPasswordGives16Chars(rows: seq<Account>, actor: Clean, email: string, stream: seq<byte>, svc: Services)
    requires 16 <= |Kept(stream)|
    ensures !actor.isAdmin ==> ResetPasswordPlan(rows, actor, email, stream, svc).accounts == rows
    ensures var out := ResetPasswordPlan(rows, actor, email, stream, svc);
      out.response.code == 200 ==>
        && actor.isAdmin
        && out.response.body.NewPassword? && |out.response.body.password| == 16
        && (forall k :: 0 <= k < 16 ==> IsPasswordChar(out.response.body.password[k]))
        && Trim(out.response.body.password) == out.response.body.password
        && out.response.body.email == email
        && var after := svc.changePassword(rows, email, out.response.body.password).1;
           && svc.changePassword(rows, email, out.response.body.password).0
           && |out.accounts| == |after|
           && forall i :: OnlyAt(after, HasEmail(email), i) ==> out.accounts[i].profile.accessToken == ""
  {
    var out := ResetPasswordPlan(rows, actor, email, stream, svc);
    match GetAccount(rows, email, None, false)
    case Failure(code, message) =>
      assert out == Outcome(Fail(code, message), rows);
    case Found(account) =>
      if actor.isAdmin {
        GetAccountFound(rows, email, None, false);
        var newPassword := Kept(stream)[..16];
        var tail := ChangeThenClear(rows, email, newPassword, svc);
        if tail.response.code == 204 {
          assert out == Outcome(Response(200, NewPassword(email, newPassword)), tail.accounts);
          GeneratedPasswordIsUnpadded(newPassword);
          ChangeThenClearEmptiesAccessToken(rows, email, newPassword, svc);
        } else {
          assert out == tail;
          ChangeThenClearCodes(rows, email, newPassword, svc);
        }
      } else {
        assert out == Outcome(NotAllowed(), rows);
      }
  }

  // ---------------------------------------------------------------------------
  // POST /emailexists

  /** `POST /emailexists` with body `{ email }`: whether the non-`onlyExists` lookup finds it. */
  function EmailExists(rows: seq<Account>, email: string): (r: Response)
    ensures r.code == 200 && r.body.Exists?
    ensures r.body.found <==> exists i :: OnlyAt(rows, HasEmail(email), i) && rows[i].active != 0
  {
    CanIssueMeans(rows, email);
    Response(200, Exists(GetAccount(rows, email, None, false).Found?))
  }

  /** An account that is registered but not yet activated is reported as not existing. */
  lemma EmailExistsHidesInactive(rows: seq<Account>, email: string, i: int)
    requires OnlyAt(rows, HasEmail(email), i) && rows[i].active == 0
    ensures !EmailExists(rows, email).body.found
  {
  }
}
