/**
 * The request gate `checkToken` of backend/app.js: it lets a request through,
 * with the caller's admin id, only when the `token` cookie is present and
 * verifies; otherwise it answers for itself, by redirect or by JSON.
 */
module AuthGate {
  import opened Wrappers
  import opened JsStrings
  import opened Http

  /** Identifier of an administrator record (a MongoDB ObjectId in the source). */
  type AdminId = nat

  /** What the gate decides. */
  datatype Gate =
    | RedirectToLogin                    // an HTML caller is sent to the login page
    | Refuse(status: nat, msg: string)   // a JSON caller gets a status and a message
    | Proceed(adminId: AdminId)          // the downstream handler runs with req.adminId set

  const MissingTokenMsg := "Acesso Bloqueado!"
  const InvalidTokenMsg := "Token inválido"

  /** The token is present and the signature check (RFC 7519 verification) yields an admin id. */
  predicate Verified(token: Option<string>, verify: string -> Option<AdminId>) {
    Truthy(token) && verify(token.value).Some?
  }

  /**
   * `checkToken(req, res, next)`.
   * `token` is the `token` cookie, `verify` stands for `jwt.verify` with the
   * server's secret (the admin id of the payload, or None when it throws), and
   * `acceptsHtml` for `req.accepts('html')` (true also when the request has no
   * Accept header).
   */
  function CheckToken(token: Option<string>, verify: string -> Option<AdminId>, acceptsHtml: bool): (g: Gate)
    ensures g.Proceed? <==> Verified(token, verify)
    ensures g.Proceed? ==> g.adminId == verify(token.value).value
    ensures g.RedirectToLogin? <==> acceptsHtml && !Verified(token, verify)
    ensures g == Refuse(401, MissingTokenMsg) <==> !acceptsHtml && !Truthy(token)
    ensures g == Refuse(400, InvalidTokenMsg) <==> !acceptsHtml && Truthy(token) && !Verified(token, verify)
  {
    if !Truthy(token) then
      if acceptsHtml then RedirectToLogin else Refuse(401, MissingTokenMsg)
    else
      match verify(token.value)
      case Some(id) => Proceed(id)
      case None => if acceptsHtml then RedirectToLogin else Refuse(400, InvalidTokenMsg)
  }

  /** The response the gate sends when it does not let the request through. */
  function GateResponse(g: Gate): (r: Response)
    requires !g.Proceed?
    ensures r.Redirect? <==> g.RedirectToLogin?
    ensures r.Redirect? ==> r.location == LoginPath
    ensures g.Refuse? ==> r == Json(g.status, g.msg)
  {
    match g
    case RedirectToLogin => Redirect(LoginPath)
    case Refuse(status, msg) => Json(status, msg)
  }

  /** A refusal never depends on what the verifier would say about a missing token. */
  lemma MissingTokenIgnoresVerifier(token: Option<string>, v1: string -> Option<AdminId>,
                                    v2: string -> Option<AdminId>, acceptsHtml: bool)
    requires !Truthy(token)
    ensures CheckToken(token, v1, acceptsHtml) == CheckToken(token, v2, acceptsHtml)
    ensures !CheckToken(token, v1, acceptsHtml).Proceed?
  {
  }
}
