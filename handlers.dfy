/** The three authentication endpoints: login, register (over an in-memory
    users table standing in for the PostgreSQL `users` table) and profile. */
module Handlers {
  import opened Wrappers
  import opened JsText
  import opened Validation
  import opened Tokens

  const DemoEmail: string := "demo@orcamentos.com"
  const DemoPassword: string := "demo123"
  const RoleUser: string := "user"
  const RoleAdmin: string := "admin"

  // ---------------------------------------------------------------- login

  /** The `user` object of a login response. */
  datatype SessionUser = SessionUser(id: int, email: string, name: string, role: string)

  const DemoUser: SessionUser := SessionUser(1, DemoEmail, "Demo User", RoleAdmin)

  datatype LoginResponse = LoginMissingFields | LoggedIn(user: SessionUser, tokens: TokenPair) | BadCredentials | LoginServerError
  {
    function Status(): int {
      match this
      case LoginMissingFields => 400
      case LoggedIn(_, _) => 200
      case BadCredentials => 401
      case LoginServerError => 500
    }
  }

  /** POST /api/v1/auth/login: 400 unless both fields are given; for the demo
      pair exactly (compared as given, without lower-casing) 200, or 500 when
      `jwt.sign` throws on the configured lifetimes; 401 for any other pair. */
  function Login(email: Option<string>, password: Option<string>, cfg: Config, sign: Signer, nowMs: int): (r: LoginResponse)
    ensures r == LoginMissingFields <==> !Truthy(email) || !Truthy(password)
    ensures r.LoggedIn? || r == LoginServerError <==> email == Some(DemoEmail) && password == Some(DemoPassword)
    ensures r == LoginServerError <==> email == Some(DemoEmail) && password == Some(DemoPassword) && !cfg.lifetimesValid
    ensures r.Status() == 200 <==> email == Some(DemoEmail) && password == Some(DemoPassword) && cfg.lifetimesValid
    ensures r.Status() == 401 <==>
      Truthy(email) && Truthy(password) && !(email == Some(DemoEmail) && password == Some(DemoPassword))
    ensures r.LoggedIn? ==>
      && r.user == DemoUser
      && r.tokens == IssueTokens(DemoUser.id, DemoUser.email, DemoUser.role, cfg, sign, nowMs)
  {
    if !Truthy(email) || !Truthy(password) then LoginMissingFields
    else if email.value == DemoEmail && password.value == DemoPassword then
      if cfg.lifetimesValid then LoggedIn(DemoUser, IssueTokens(DemoUser.id, DemoUser.email, DemoUser.role, cfg, sign, nowMs))
      else LoginServerError
    else BadCredentials
  }

  // -------------------------------------------------------------- profile

  /** The `data` object of GET /api/v1/auth/profile. */
  datatype Profile = Profile(id: Option<int>, email: Option<string>, role: Option<string>, name: string)

  /** The claims echoed back; the name is not looked up anywhere. */
  function ProfileOf(c: Claims): (p: Profile)
    ensures p.id == c.userId && p.email == c.email && p.role == c.role
    ensures p.name == "Demo User" <==> c.email == Some(DemoEmail)
    ensures p.name == "User" <==> c.email != Some(DemoEmail)
  {
    Profile(c.userId, c.email, c.role, if c.email == Some(DemoEmail) then "Demo User" else "User")
  }

  /** Logging in as the demo user and presenting the access token: with
      `JWT_SECRET` set, the demo admin's profile; with it unset or empty, 403. */
  lemma LoginThenProfile(cfg: Config, sign: Signer, verify: Verifier, nowMs: int)
    requires SignerSound(sign, verify)
    requires cfg.lifetimesValid
    ensures
      var r := Login(Some(DemoEmail), Some(DemoPassword), cfg, sign, nowMs);
      && r.LoggedIn?
      && var g := Gate(Some(BearerHeader(r.tokens.accessToken)), AccessVerifyKeyAsWritten(cfg), verify);
      && (Truthy(cfg.jwtSecret) ==>
            && g == Authorized(AccessClaims(1, DemoEmail, RoleAdmin))
            && ProfileOf(g.claims) == Profile(Some(1), Some(DemoEmail), Some(RoleAdmin), "Demo User"))
      && (!Truthy(cfg.jwtSecret) ==> g == InvalidToken)
  {
    IssuedAccessTokenAtGate(DemoUser.id, DemoUser.email, DemoUser.role, cfg, sign, verify, nowMs);
  }

  // ------------------------------------------------------------- register

  /** A row of the `users` table. */
  datatype UserRow = UserRow(id: nat, name: string, email: string, phone: string, passwordHash: string, role: string, createdAt: int)

  /** The `user` object of a 201 response: the row without its password hash. */
  datatype PublicUser = PublicUser(id: nat, email: string, name: string, phone: string, role: string, createdAt: int)

  function Public(u: UserRow): (p: PublicUser)
    ensures p.id == u.id && p.email == u.email && p.name == u.name
    ensures p.phone == u.phone && p.role == u.role && p.createdAt == u.createdAt
  {
    PublicUser(u.id, u.email, u.name, u.phone, u.role, u.createdAt)
  }

  /** The public view does not depend on the password hash at all. */
  lemma PublicHidesHash(u: UserRow, otherHash: string)
    ensures Public(u.(passwordHash := otherHash)) == Public(u)
  {
  }

  /** The row the INSERT writes for an accepted submission: the trimmed name
      (no whitespace left at either end), the email already in key form, the
      phone as given, the hash of the password and role 'user'. */
  function NewRow(id: nat, f: RegistrationForm, hash: string -> string, createdAt: int): (u: UserRow)
    requires AllProvided(f)
    ensures u.id == id && u.createdAt == createdAt && u.role == RoleUser
    ensures u.email == Lower(f.email.value) && Lower(u.email) == u.email
    ensures u.name == Trim(f.name.value)
    ensures u.name == [] || (!IsWhitespace(u.name[0]) && !IsWhitespace(u.name[|u.name| - 1]))
    ensures u.phone == f.phone.value && u.passwordHash == hash(f.password.value)
  {
    LowerIsCanonical(f.email.value, f.email.value);
    UserRow(id, Trim(f.name.value), Lower(f.email.value), f.phone.value, hash(f.password.value), RoleUser, createdAt)
  }

  /** How the store call behaves on this request: both queries succeed, or one
      of them throws an error carrying a PostgreSQL error code. */
  datatype StoreFault = NoFault | LookupFails(code: string) | InsertFails(code: string)

  /** PostgreSQL's `unique_violation`. */
  const UniqueViolation: string := "23505"

  datatype RegisterResponse =
    | Created(user: PublicUser, tokens: TokenPair)
    | Invalid(error: ValidationError)
    | Conflict
    | ServerError
  {
    function Status(): int {
      match this
      case Created(_, _) => 201
      case Invalid(_) => 400
      case Conflict => 409
      case ServerError => 500
    }

    /** The response's `message`. */
    function Message(): (m: string)
      ensures m == "Registration successful" <==> Status() == 201
      ensures m == "Validation failed" <==> Status() == 400
    {
      match this
      case Created(_, _) => "Registration successful"
      case Invalid(_) => "Validation failed"
      case _ => "Registration failed"
    }

    /** The response's `errors` array: one message for every failure. */
    function Errors(): (es: seq<string>)
      ensures Created? <==> es == []
      ensures !Created? ==> |es| == 1
    {
      match this
      case Created(_, _) => []
      case Invalid(e) => [e.Message()]
      case Conflict => ["User with this email already exists"]
      case ServerError => ["Internal server error"]
    }
  }

  /** The `catch` block: a unique violation is a duplicate email, anything else
      is an internal error. */
  function CaughtError(code: string): (r: RegisterResponse)
    ensures r == Conflict <==> code == UniqueViolation
    ensures r != Conflict ==> r == ServerError
  {
    if code == UniqueViolation then Conflict else ServerError
  }

  /** The `users` table, keyed by the (lower-cased) email column, which is
      unique; `nextId` is the next value of the id sequence. */
  class UserStore {
    var rows: map<string, UserRow>
    var nextId: nat

    /** Every key is the row's own email, already lower-cased; every row was
        made by registration, so has role 'user'; ids are distinct and below
        the sequence's next value. */
    ghost predicate Valid()
      reads this
    {
      && (forall e :: e in rows ==> rows[e].email == e && Lower(e) == e && rows[e].role == RoleUser && rows[e].id < nextId)
      && (forall e, e' :: e in rows && e' in rows && e != e' ==> rows[e].id != rows[e'].id)
    }

    constructor ()
      ensures Valid() && rows == map[] && nextId == 1
    {
      rows := map[];
      nextId := 1;
    }

    /** POST /api/v1/auth/register. Validation, then the duplicate lookup on
        the lower-cased email, then the INSERT, then `jwt.sign`; an error thrown
        by either query is mapped by `CaughtError`. The table changes, by
        exactly one new row, only when the INSERT runs and succeeds: on a 201,
        or on a 500 when signing then throws (the row stays committed). */
    method Register(form: RegistrationForm, fault: StoreFault, hash: string -> string,
                    cfg: Config, sign: Signer, createdAt: int, nowMs: int) returns (r: RegisterResponse)
      requires Valid()
      modifies this
      ensures Valid()
      ensures (rows == old(rows) && nextId == old(nextId)) <==>
        !(Validate(form).Accepted? && fault == NoFault && Lower(form.email.value) !in old(rows))
      ensures r.Created? <==>
        Validate(form).Accepted? && fault == NoFault && Lower(form.email.value) !in old(rows) && cfg.lifetimesValid
      ensures Validate(form).Rejected? ==> r == Invalid(Validate(form).error)
      ensures Validate(form).Rejected? ==> r.Status() == 400 && r.Errors() == [Validate(form).error.Message()]
      ensures Validate(form).Accepted? && fault.LookupFails? ==> r == CaughtError(fault.code)
      ensures Validate(form).Accepted? && !fault.LookupFails? && Lower(form.email.value) in old(rows) ==>
        r == Conflict
      ensures Validate(form).Accepted? && fault.InsertFails? && Lower(form.email.value) !in old(rows) ==>
        r == CaughtError(fault.code)
      ensures Validate(form).Accepted? && fault == NoFault && Lower(form.email.value) !in old(rows) ==>
        var row := NewRow(old(nextId), form, hash, createdAt);
        && rows == old(rows)[row.email := row]
        && nextId == old(nextId) + 1
        && r == (if cfg.lifetimesValid then Created(Public(row), IssueTokens(row.id, row.email, row.role, cfg, sign, nowMs))
                 else ServerError)
    {
      var verdict := Validate(form);
      if verdict.Rejected? {
        r := Invalid(verdict.error);
        assert r.Errors() == [verdict.error.Message()];
        return;
      }
      var email := Lower(form.email.value);
      if fault.LookupFails? {
        return CaughtError(fault.code);
      }
      if email in rows {
        return Conflict;
      }
      if fault.InsertFails? {
        return CaughtError(fault.code);
      }
      var row := NewRow(nextId, form, hash, createdAt);
      rows := rows[email := row];
      nextId := nextId + 1;
      if !cfg.lifetimesValid {
        return ServerError;
      }
      r := Created(Public(row), IssueTokens(row.id, row.email, row.role, cfg, sign, nowMs));
    }
  }

  /** Two accepted registrations whose emails differ at most in ASCII case, on
      a table without that email: the first creates the user, the second is
      refused with 409 and leaves the table as the first left it. */
  method RegisterTwice(store: UserStore, first: RegistrationForm, second: RegistrationForm, hash: string -> string,
                       cfg: Config, sign: Signer, createdAt: int, nowMs: int)
      returns (r1: RegisterResponse, r2: RegisterResponse)
    requires store.Valid()
    requires Validate(first).Accepted? && Validate(second).Accepted?
    requires EqualIgnoringCase(first.email.value, second.email.value)
    requires Lower(first.email.value) !in store.rows
    requires cfg.lifetimesValid
    modifies store
    ensures store.Valid()
    ensures r1.Status() == 201 && r2.Status() == 409
    ensures store.rows == old(store.rows)[Lower(first.email.value) := NewRow(old(store.nextId), first, hash, createdAt)]
  {
    var key := Lower(first.email.value);
    r1 := store.Register(first, NoFault, hash, cfg, sign, createdAt, nowMs);
    assert r1.Created?;
    assert key in store.rows;
    ghost var afterFirst := store.rows;
    LowerIsCanonical(first.email.value, second.email.value);
    assert Lower(second.email.value) == key;
    r2 := store.Register(second, NoFault, hash, cfg, sign, createdAt, nowMs);
    assert r2 == Conflict;
    assert store.rows == afterFirst;
  }

  /** The profile a newly registered user gets back with the access token of
      the 201 response: with `JWT_SECRET` set, the stored id, email and role,
      and the name 'User' (not the registered name) unless the email is the
      demo address; with it unset or empty, 403. */
  lemma RegisteredUserProfile(row: UserRow, cfg: Config, sign: Signer, verify: Verifier, nowMs: int)
    requires SignerSound(sign, verify)
    ensures
      var t := IssueTokens(row.id, row.email, row.role, cfg, sign, nowMs);
      var g := Gate(Some(BearerHeader(t.accessToken)), AccessVerifyKeyAsWritten(cfg), verify);
      && (Truthy(cfg.jwtSecret) ==>
            && g.Authorized?
            && ProfileOf(g.claims) == Profile(Some(row.id), Some(row.email), Some(row.role),
                                              if row.email == DemoEmail then "Demo User" else "User"))
      && (!Truthy(cfg.jwtSecret) ==> g == InvalidToken)
  {
    IssuedAccessTokenAtGate(row.id, row.email, row.role, cfg, sign, verify, nowMs);
  }
}
