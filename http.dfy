/** What an Express handler sends back, reduced to what the model distinguishes. */
module Http {

  datatype Response =
    | Redirect(location: string)         // res.redirect(location)
    | Json(status: nat, msg: string)     // res.status(status).json({ msg })
    | ErrorPage(status: nat)             // Express's default error handler

  const LoginPath := "/login"
}
