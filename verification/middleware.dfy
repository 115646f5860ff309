/** The request middleware: public paths pass, API paths need a verified
    token, page paths without one go to the login page, `/dashboard` goes to
    the caller's own dashboard, and the three areas are guarded by role. */
module Middleware {

  import opened Text
  import opened Domain

  /** What the middleware does with a request: let it through unchanged,
      let it through with `x-usuario-id` and `x-usuario-tipo` set, answer
      401 with a message, or redirect. */
  datatype Decision =
    | Pass
    | PassAs(usuarioId: int, tipo: Role)
    | Unauthorized(error: string)
    | Redirect(path: string)

  /** `PUBLIC_ROUTES` as shipped. */
  const PublicRoutes: seq<string> := ["/", "/auth/login", "/api/auth/login", "/api/auth/logout", "/api/usuarios"]

  /** `routes.some((route) => pathname.startsWith(route))`. */
  predicate AnyPrefix(routes: seq<string>, path: string)
  {
    exists i :: 0 <= i < |routes| && StartsWith(path, routes[i])
  }

  /** The area rule for a caller with a verified token on a page path:
      `/admin*` is for ADMIN, `/gestor*` for GESTOR and ADMIN,
      `/participante*` for PARTICIPANTE, every other page for all. */
  predicate Admits(tipo: Role, path: string)
  {
    if StartsWith(path, "/admin") then tipo == Admin
    else if StartsWith(path, "/gestor") then tipo == Gestor || tipo == Admin
    else if StartsWith(path, "/participante") then tipo == Participante
    else true
  }

  /** The public-route test as written: any listed route that is a prefix
      of the path. */
  predicate PublicAsWritten(path: string)
  {
    AnyPrefix(PublicRoutes, path)
  }

  /** The public-route test the area guards presuppose: `/` only as the
      whole path, the other routes as prefixes. */
  predicate PublicIntended(path: string)
  {
    path == "/" || AnyPrefix(PublicRoutes[1..], path)
  }

  /** `middleware`, given whether the path counted as public; `a` is what
      the cookie and token check give (see `Cookies.Authenticate`). */
  function Decide(isPublic: bool, path: string, verb: string, a: Auth): (d: Decision)
    ensures isPublic ==> d == Pass
    ensures !isPublic && StartsWith(path, "/api/") ==>
      if StartsWith(path, "/api/auth/") || (path == "/api/usuarios" && verb == "POST") then d == Pass
      else if a.NoToken? then d == Unauthorized("Não autorizado")
      else if a.BadToken? then d == Unauthorized("Token inválido ou expirado")
      else d == PassAs(a.payload.usuarioId, a.payload.tipo)
    ensures !isPublic && !StartsWith(path, "/api/") && !a.Valid? ==>
      d == Redirect("/auth/login")
    ensures !isPublic && !StartsWith(path, "/api/") && a.Valid? && path == "/dashboard" ==>
      d == Redirect(Dashboard(a.payload.tipo))
    ensures !isPublic && !StartsWith(path, "/api/") && a.Valid? && path != "/dashboard" ==>
      (d == PassAs(a.payload.usuarioId, a.payload.tipo) <==> Admits(a.payload.tipo, path))
    ensures d.Redirect? && a.Valid? ==> d.path == Dashboard(a.payload.tipo)
  {
    if isPublic then Pass
    else if StartsWith(path, "/api/") then
      if StartsWith(path, "/api/auth/") then Pass
      else if path == "/api/usuarios" && verb == "POST" then Pass
      else if a.NoToken? then Unauthorized("Não autorizado")
      else if a.BadToken? then Unauthorized("Token inválido ou expirado")
      else PassAs(a.payload.usuarioId, a.payload.tipo)
    else if !a.Valid? then Redirect("/auth/login")
    else
      var p := a.payload;
      if path == "/dashboard" then Redirect(Dashboard(p.tipo))
      else if StartsWith(path, "/admin") then
        if p.tipo != Admin then
          (if p.tipo == Gestor then Redirect("/gestor/dashboard") else Redirect("/participante/dashboard"))
        else PassAs(p.usuarioId, p.tipo)
      else if StartsWith(path, "/gestor") then
        if p.tipo != Gestor && p.tipo != Admin then Redirect("/participante/dashboard")
        else PassAs(p.usuarioId, p.tipo)
      else if StartsWith(path, "/participante") then
        if p.tipo != Participante then
          (if p.tipo == Admin then Redirect("/admin/dashboard") else Redirect("/gestor/dashboard"))
        else PassAs(p.usuarioId, p.tipo)
      else PassAs(p.usuarioId, p.tipo)
  }

  /** The middleware as shipped. */
  function Route(path: string, verb: string, a: Auth): (d: Decision)
    ensures PublicAsWritten(path) ==> d == Pass
  {
    Decide(PublicAsWritten(path), path, verb, a)
  }

  /** The middleware with `/` matched as a whole path. */
  function RouteIntended(path: string, verb: string, a: Auth): (d: Decision)
    ensures PublicIntended(path) ==> d == Pass
  {
    Decide(PublicIntended(path), path, verb, a)
  }

  /** As shipped, `/` is a prefix of every path name, so every request
      passes untouched: the token and area checks are never reached. */
  lemma EveryPathIsPublic(path: string, verb: string, a: Auth)
    requires StartsWith(path, "/")
    ensures Route(path, verb, a) == Pass
  {
    assert StartsWith(path, PublicRoutes[0]);
  }

  /** The shipped middleware lets a visitor without a token into the
      administration area. */
  lemma AdminAreaOpen()
    ensures Route("/admin/dashboard", "GET", NoToken) == Pass
  {
    EveryPathIsPublic("/admin/dashboard", "GET", NoToken);
  }

  /** The two characters after the leading `/` of a path with one of
      these prefixes. */
  lemma AreaLetters(path: string)
    requires StartsWith(path, "/admin") || StartsWith(path, "/gestor") || StartsWith(path, "/participante")
    ensures |path| >= 6
    ensures path[1] == 'g' || path[1] == 'p' || (path[1] == 'a' && path[2] == 'd')
  {
    if StartsWith(path, "/admin") {
      assert path[..6] == "/admin";
      assert path[1] == path[..6][1] && path[2] == path[..6][2];
    } else if StartsWith(path, "/gestor") {
      assert path[..7] == "/gestor";
      assert path[1] == path[..7][1];
    } else {
      assert path[..13] == "/participante";
      assert path[1] == path[..13][1];
    }
  }

  /** A path with prefix `r` agrees with `r` on its first characters. */
  lemma PrefixLetters(path: string, r: string)
    requires StartsWith(path, r) && |r| >= 3
    ensures path[1] == r[1] && path[2] == r[2]
  {
    assert path[1] == path[..|r|][1] && path[2] == path[..|r|][2];
  }

  /** The paths under the three areas are not public once `/` is matched
      whole. */
  lemma AreaNotPublic(path: string)
    requires StartsWith(path, "/admin") || StartsWith(path, "/gestor") || StartsWith(path, "/participante")
    ensures !PublicIntended(path)
  {
    AreaLetters(path);
    var rs := PublicRoutes[1..];
    forall i | 0 <= i < |rs|
      ensures !StartsWith(path, rs[i])
    {
      assert rs[i] == PublicRoutes[i + 1];
      assert |rs[i]| >= 3 && rs[i][1] == 'a' && (rs[i][2] == 'u' || rs[i][2] == 'p');
      if StartsWith(path, rs[i]) {
        PrefixLetters(path, rs[i]);
        assert false;
      }
    }
  }

  /** With `/` matched whole, an area page needs a verified token whose
      role the area admits; everyone else goes to the login page or to
      their own dashboard. */
  lemma AreasGuarded(path: string, verb: string, a: Auth)
    requires StartsWith(path, "/admin") || StartsWith(path, "/gestor") || StartsWith(path, "/participante")
    ensures !a.Valid? ==> RouteIntended(path, verb, a) == Redirect("/auth/login")
    ensures a.Valid? ==>
      if Admits(a.payload.tipo, path) then RouteIntended(path, verb, a) == PassAs(a.payload.usuarioId, a.payload.tipo)
      else RouteIntended(path, verb, a) == Redirect(Dashboard(a.payload.tipo))
  {
    AreaNotPublic(path);
    AreaLetters(path);
    if StartsWith(path, "/api/") {
      PrefixLetters(path, "/api/");
      assert false;
    }
  }

  /** A caller who may not enter an area lands on their own dashboard,
      never in another role's area. */
  lemma RefusedGoHome(isPublic: bool, path: string, verb: string, p: Payload)
    requires !isPublic && !StartsWith(path, "/api/")
    requires !Admits(p.tipo, path)
    ensures Decide(isPublic, path, verb, Valid(p)) == Redirect(Dashboard(p.tipo))
  {
  }
}
