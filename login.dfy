/**
 * `POST /auth/login` of backend/app.js: checks the body in a fixed order,
 * then looks up an administrator whose stored username and password equal
 * the given ones (plaintext), and on a match sets a signed `token` cookie.
 */
module Login {
  import opened Wrappers
  import opened JsStrings
  import opened AuthGate

  /** An administrator record (backend/models/admins.js); every field may be absent. */
  datatype Admin = Admin(id: AdminId, nome: Option<string>, username: Option<string>,
                         password: Option<string>, ativo: Option<bool>)

  /** The request body `{ username, password }`. */
  datatype Credentials = Credentials(username: Option<string>, password: Option<string>)

  datatype LoginResult =
    | Rejected(status: nat, msg: string)
    | Authenticated(adminId: AdminId, token: string)   // 200, cookie `token` set to `token`

  const MinPasswordLength := 8
  const RequiredMsg := "Usuário e senha são obrigatórios"
  const ShortPasswordMsg := "A senha deve ter no mínimo 8 caracteres!"
  const InvalidMsg := "Usuário ou senha inválidos"
  const SuccessMsg := "Autenticação realizada com sucesso"

  /** `admins.findOne({ username, password })` matches a record on both fields exactly. */
  predicate Matches(a: Admin, username: string, password: string) {
    a.username == Some(username) && a.password == Some(password)
  }

  /** Position of the first record, from `from` on, that matches; `|admins|` when none does. */
  function FindFrom(admins: seq<Admin>, username: string, password: string, from: nat): (i: nat)
    requires from <= |admins|
    ensures from <= i <= |admins|
    ensures i < |admins| ==> Matches(admins[i], username, password)
    ensures forall j :: from <= j < i ==> !Matches(admins[j], username, password)
    decreases |admins| - from
  {
    if from == |admins| then from
    else if Matches(admins[from], username, password) then from
    else FindFrom(admins, username, password, from + 1)
  }

  /** `findOne` on the collection in its natural order. */
  function FindAdmin(admins: seq<Admin>, username: string, password: string): (r: Option<Admin>)
    ensures r.Some? <==> exists j :: 0 <= j < |admins| && Matches(admins[j], username, password)
    ensures r.Some? ==> r.value in admins && Matches(r.value, username, password)
  {
    var i := FindFrom(admins, username, password, 0);
    if i < |admins| then Some(admins[i]) else None
  }

  /**
   * The login handler. `sign` stands for `jwt.sign({ id }, secret)`.
   * The checks run in order: both fields present, password length, lookup.
   */
  function HandleLogin(c: Credentials, admins: seq<Admin>, sign: AdminId -> string): (r: LoginResult)
    ensures r == Rejected(422, RequiredMsg) <==> !Truthy(c.username) || !Truthy(c.password)
    ensures r == Rejected(422, ShortPasswordMsg) <==>
      Truthy(c.username) && Truthy(c.password) && |c.password.value| < MinPasswordLength
    ensures r == Rejected(404, InvalidMsg) <==>
      && Truthy(c.username) && Truthy(c.password) && |c.password.value| >= MinPasswordLength
      && FindAdmin(admins, c.username.value, c.password.value).None?
    ensures r.Authenticated? <==>
      && Truthy(c.username) && Truthy(c.password) && |c.password.value| >= MinPasswordLength
      && FindAdmin(admins, c.username.value, c.password.value).Some?
    ensures r.Authenticated? ==>
      && Truthy(c.username) && Truthy(c.password) && |c.password.value| >= MinPasswordLength
      && exists a :: a in admins && Matches(a, c.username.value, c.password.value)
                     && r.adminId == a.id && r.token == sign(a.id)
  {
    if !Truthy(c.username) || !Truthy(c.password) then Rejected(422, RequiredMsg)
    else if |c.password.value| < MinPasswordLength then Rejected(422, ShortPasswordMsg)
    else match FindAdmin(admins, c.username.value, c.password.value)
      case None => Rejected(404, InvalidMsg)
      case Some(a) => Authenticated(a.id, sign(a.id))
  }

  /** The validation checks answer before, and so regardless of, the credential store. */
  lemma ValidationPrecedesLookup(c: Credentials, s1: seq<Admin>, s2: seq<Admin>, sign: AdminId -> string)
    requires !Truthy(c.username) || !Truthy(c.password) || |c.password.value| < MinPasswordLength
    ensures HandleLogin(c, s1, sign) == HandleLogin(c, s2, sign)
    ensures HandleLogin(c, s1, sign).Rejected? && HandleLogin(c, s1, sign).status == 422
  {
  }

  /** A wrong username and a wrong password give the same answer. */
  lemma FailureHidesWhichField(c1: Credentials, c2: Credentials, admins: seq<Admin>, sign: AdminId -> string)
    requires HandleLogin(c1, admins, sign).Rejected? && HandleLogin(c1, admins, sign).status == 404
    requires HandleLogin(c2, admins, sign).Rejected? && HandleLogin(c2, admins, sign).status == 404
    ensures HandleLogin(c1, admins, sign) == HandleLogin(c2, admins, sign)
  {
  }

  /** A record that matches logs in, whatever its `ativo` flag says. */
  lemma {:induction false} MatchingAdminLogsIn(c: Credentials, admins: seq<Admin>, sign: AdminId -> string, k: nat)
    requires Truthy(c.username) && Truthy(c.password) && |c.password.value| >= MinPasswordLength
    requires k < |admins| && Matches(admins[k], c.username.value, c.password.value)
    ensures HandleLogin(c, admins, sign).Authenticated?
  {
    assert FindAdmin(admins, c.username.value, c.password.value).Some?;
  }
}
