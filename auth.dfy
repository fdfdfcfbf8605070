/**
 * The authentication hooks: the `beforeCreate` user trigger that promotes
 * the addresses listed in `ADMIN`, the session `create.before` hook that
 * derives location and device metadata from the request headers, and the
 * session lifetimes.
 */
module Auth {
  import opened Wrappers
  import opened Text
  import opened Env

  /** A user as the authentication library creates it. */
  datatype AuthUser = AuthUser(
    email: string, name: string, role: Option<string>, avatarUrl: Option<string>, website: Option<string>)

  const AdminRole := "admin"

  /**
   * `beforeCreate`: a user whose address is listed in `ADMIN` and who is
   * not already an admin becomes one; every other field, and every other
   * user, is unchanged. Reading `ADMIN` fails as `getEnv` does.
   */
  function BeforeCreate(u: AuthUser, env: EnvValue): (r: Result<AuthUser>)
    ensures r.Err? <==> GetAdmin(env).Err?
    ensures r.Ok? ==> r.value.(role := u.role) == u
    ensures r.Ok? ==> (r.value.role == Some(AdminRole) <==> u.role == Some(AdminRole) || u.email in GetAdmin(env).value)
    ensures r.Ok? && u.email !in GetAdmin(env).value ==> r.value == u
  {
    match GetAdmin(env)
    case Err(m) => Err(m)
    case Ok(admins) =>
      var role := if u.role != Some(AdminRole) && u.email in admins then Some(AdminRole) else u.role;
      Ok(u.(role := role))
  }

  /** Running the trigger on its own result changes nothing. */
  lemma BeforeCreateIdempotent(u: AuthUser, env: EnvValue)
    requires BeforeCreate(u, env).Ok?
    ensures BeforeCreate(BeforeCreate(u, env).value, env) == BeforeCreate(u, env)
  {
  }

  // ---------------------------------------------------------------------
  // Session metadata

  /** The request headers, under their lower-case names. */
  datatype Request = Request(headers: map<string, string>)

  datatype Session = Session(id: string, userId: string, expiresAt: int)

  datatype SessionData = SessionData(session: Session, country: Option<string>, city: Option<string>, isMobile: bool)

  /** `headers.get(name)`. */
  function Header(req: Request, name: string): Option<string> {
    if name in req.headers then Some(req.headers[name]) else None
  }

  /** `/Mobi|Android|iPhone/i.test(ua)`: the case-insensitive search, on the ASCII letters the pattern holds. */
  predicate IsMobileAgent(ua: string) {
    Contains(Lower(ua), "mobi") || Contains(Lower(ua), "android") || Contains(Lower(ua), "iphone")
  }

  /**
   * The session `create.before` hook. Without a request nothing changes;
   * otherwise the session gains the `cf-ipcountry` header as its country,
   * the decoded `cf-ipcity` header as its city (only when that header is
   * non-empty), and whether the user agent names a mobile device. URI
   * decoding is the platform's (`decode`).
   */
  function SessionBefore(session: Session, request: Option<Request>, decode: string -> string): (r: Option<SessionData>)
    ensures r.None? <==> request.None?
    ensures r.Some? ==> r.value.session == session
    ensures r.Some? ==> r.value.country == Header(request.value, "cf-ipcountry")
    ensures r.Some? ==> (r.value.city.Some? <==> Header(request.value, "cf-ipcity").Some? && Header(request.value, "cf-ipcity").value != "")
    ensures r.Some? && r.value.city.Some? ==> r.value.city.value == decode(Header(request.value, "cf-ipcity").value)
    ensures r.Some? && Header(request.value, "user-agent").None? ==> !r.value.isMobile
    ensures r.Some? ==> (r.value.isMobile <==> IsMobileAgent(Header(request.value, "user-agent").GetOr("")))
  {
    match request
    case None => None
    case Some(req) =>
      var ua := Header(req, "user-agent").GetOr("");
      var cityHeader := Header(req, "cf-ipcity");
      Some(SessionData(
        session,
        Header(req, "cf-ipcountry"),
        if cityHeader.Some? && cityHeader.value != "" then Some(decode(cityHeader.value)) else None,
        IsMobileAgent(ua)))
  }

  const Day := 60 * 60 * 24

  /** Sessions expire 30 days after creation and are refreshed once 15 days old, in seconds. */
  const SessionExpiresIn := 30 * Day
  const SessionUpdateAge := 15 * Day
}
