/** The project route: `projetoSchema`, checked before the token, the checks
    of POST in their order, and the role-scoped listing of GET. */
module Projects {

  import opened Wrappers
  import opened Seqs
  import opened Sorting
  import opened Text
  import opened Domain
  import opened Policy
  import Sessions

  /** An optional text member of a JSON body. */
  type JsonText = Json<string>

  /** What the insert stores for an optional text member that passed the
      schema: a left-out member leaves the column `null`. */
  function Stored(f: JsonText): (r: Option<string>)
    ensures r.Some? <==> f.Given?
    ensures f.Given? ==> r.value == f.value
  {
    if f.Given? then Some(f.value) else None
  }

  /** `z.string().optional()`: absent or a string, never `null`. */
  function OptionalTextIssues(f: JsonText): (r: seq<string>)
    ensures |r| == 0 <==> !f.Null?
  {
    if f.Null? then [NullString] else []
  }

  /** The JSON body of POST. */
  datatype ProjectBody = ProjectBody(titulo: Json<string>, descricaoDetalhada: JsonText,
                                     autorResponsavel: JsonText, sessaoId: Json<int>)

  /** `z.number().int()` on `sessao_id`: a number must be given. */
  function SessionIdIssues(x: Json<int>): (r: seq<string>)
    ensures |r| == 0 <==> x.Given?
    ensures x.Null? ==> r == [NullNumber]
  {
    match x
    case Absent => ["Required"]
    case Null => [NullNumber]
    case Given(_) => []
  }

  /** The issues `projetoSchema` reports, in field order. */
  function ProjectBodyIssues(b: ProjectBody): (r: seq<string>)
    ensures |r| == 0 <==>
      && b.titulo.Given? && |b.titulo.value| >= 1 && b.sessaoId.Given?
      && !b.descricaoDetalhada.Null? && !b.autorResponsavel.Null?
    ensures b.descricaoDetalhada.Null? ==> NullString in r
  {
    Sessions.TitleIssues(b.titulo) + OptionalTextIssues(b.descricaoDetalhada)
    + OptionalTextIssues(b.autorResponsavel) + SessionIdIssues(b.sessaoId)
  }

  const StaffOnly := "Apenas administradores e gestores podem criar projetos"
  const SessionMissing := "Sessão não encontrada"
  const NoPermission := "Você não tem permissão para criar projetos nesta sessão"
  const TitleTaken := "Já existe um projeto com este título na sessão"

  /** A non-ADMIN may add projects to a session they created, to one of a
      community they created, or to one of a community they belong to. */
  predicate MayAddTo(st: Store, p: Payload, s: Session)
  {
    || p.tipo == Admin
    || s.criadorId == p.usuarioId
    || (SessionCommunity(st, s).Some?
        && (SessionCommunity(st, s).value.criadorId == p.usuarioId
            || IsMember(st, p.usuarioId, SessionCommunity(st, s).value.id)))
  }

  /** Every check before the insert passes. */
  predicate ProjectAuthorized(st: Store, a: Auth, b: ProjectBody)
  {
    && |ProjectBodyIssues(b)| == 0 && a.Valid? && a.payload.tipo != Participante
    && FindSession(st, b.sessaoId.value).Some?
    && MayAddTo(st, a.payload, FindSession(st, b.sessaoId.value).value)
  }

  predicate TitleInSession(st: Store, titulo: string, sessaoId: int)
  {
    exists p :: p in st.projects && p.sessaoId == sessaoId && p.titulo == titulo
  }

  /** POST /api/projetos. */
  function PostProject(st: Store, a: Auth, b: ProjectBody): (r: Outcome<(Project, Store)>)
    ensures r.Fail? && r.code == 400 <==> |ProjectBodyIssues(b)| > 0
    ensures r.Fail? && r.code == 401 <==> |ProjectBodyIssues(b)| == 0 && !a.Valid?
    ensures r == Fail(403, StaffOnly) <==>
      |ProjectBodyIssues(b)| == 0 && a.Valid? && a.payload.tipo == Participante
    ensures r == Fail(404, SessionMissing) <==>
      |ProjectBodyIssues(b)| == 0 && a.Valid? && a.payload.tipo != Participante
      && FindSession(st, b.sessaoId.value).None?
    ensures r == Fail(403, NoPermission) <==>
      |ProjectBodyIssues(b)| == 0 && a.Valid? && a.payload.tipo != Participante
      && FindSession(st, b.sessaoId.value).Some?
      && !MayAddTo(st, a.payload, FindSession(st, b.sessaoId.value).value)
    ensures r == Fail(409, TitleTaken) <==>
      ProjectAuthorized(st, a, b) && TitleInSession(st, b.titulo.value, b.sessaoId.value)
    ensures r.Done? <==> ProjectAuthorized(st, a, b) && !TitleInSession(st, b.titulo.value, b.sessaoId.value)
    ensures r.Done? ==>
      var (x, st') := r.value;
      && r.code == 201
      && x.titulo == b.titulo.value && x.sessaoId == b.sessaoId.value
      && x.descricaoDetalhada == Stored(b.descricaoDetalhada) && x.autorResponsavel == Stored(b.autorResponsavel)
      && (forall y :: y in st.projects ==> y.id != x.id)
      && st' == st.(projects := st.projects + [x])
    ensures !r.Looping?
  {
    if |ProjectBodyIssues(b)| > 0 then Fail(400, JoinWith(ProjectBodyIssues(b), ", "))
    else if !a.Valid? then AuthFailure(a)
    else if a.payload.tipo == Participante then Fail(403, StaffOnly)
    else
      match FindSession(st, b.sessaoId.value)
      case None => Fail(404, SessionMissing)
      case Some(s) =>
        if !MayAddTo(st, a.payload, s) then Fail(403, NoPermission)
        else
          match InsertProject(st, b.titulo.value, Stored(b.descricaoDetalhada), Stored(b.autorResponsavel), b.sessaoId.value)
          case Conflict(_) => Fail(409, TitleTaken)
          case Written(x, st') => Done(201, (x, st'))
  }

  /** The body is looked at before the cookie: a bad body gets 400 from
      a caller without a token too. */
  lemma BodyBeforeToken(st: Store, b: ProjectBody)
    requires |ProjectBodyIssues(b)| > 0
    ensures PostProject(st, NoToken, b).code == 400
  {
  }

  /** The project rule admits exactly the callers the session rule admits
      in the session's community, plus the session's own creator. */
  lemma ProjectRuleExtendsSessionRule(st: Store, p: Payload, s: Session)
    requires SessionCommunity(st, s).Some?
    ensures MayAddTo(st, p, s) <==>
      s.criadorId == p.usuarioId || Sessions.MayOpenIn(st, p, SessionCommunity(st, s).value)
  {
  }

  /** GET /api/projetos, with the optional `sessao_id` query parameter
      (parsed; `None` when absent or empty); ordered by ascending id. */
  function GetProjects(st: Store, a: Auth, sessaoQ: Option<int>): (r: Outcome<seq<Project>>)
    ensures r.Fail? <==> !a.Valid?
    ensures r.Fail? ==> r.code == 401
    ensures r.Done? ==> r.code == 200 && SortedBy(r.value, (x: Project) => x.id)
    ensures r.Done? ==> forall x :: x in r.value <==>
      x in st.projects && (sessaoQ.Some? ==> x.sessaoId == sessaoQ.value) && ProjectVisible(st, a.payload, x)
    ensures r.Done? ==> |r.value| <= |st.projects|
  {
    if !a.Valid? then AuthFailure(a)
    else
      var p := a.payload;
      var keep := (x: Project) =>
        && (sessaoQ.Some? ==> x.sessaoId == sessaoQ.value)
        && (p.tipo == Admin
            || (FindSession(st, x.sessaoId).Some?
                && if p.tipo == Gestor then GestorReaches(st, p.usuarioId, FindSession(st, x.sessaoId).value)
                   else MemberReaches(st, p.usuarioId, FindSession(st, x.sessaoId).value)));
      var found := Filter(st.projects, keep);
      var r := SortBy(found, (x: Project) => x.id);
      SortedElements(found, r);
      Done(200, r)
  }

  /** A project is listed for a non-ADMIN exactly when its session is
      listed for them by the session route. */
  lemma ProjectsFollowSessions(st: Store, a: Auth, x: Project, s: Session)
    requires a.Valid? && a.payload.tipo != Admin
    requires x in st.projects && FindSession(st, x.sessaoId) == Some(s)
    ensures x in GetProjects(st, a, None).value <==> s in Sessions.GetSessions(st, a, None, None).value
  {
  }
}
