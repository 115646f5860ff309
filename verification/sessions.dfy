/** The voting-session route: `sessaoSchema`, the checks of POST in their
    order, and the role-scoped listing of GET. Dates reach the model through
    an oracle from the `YYYY-MM-DDTHH:MM` text to a timestamp. */
module Sessions {

  import opened Wrappers
  import opened Seqs
  import opened Sorting
  import opened Text
  import opened Domain
  import opened Policy
  import Votes

  // sessaoSchema

  /** The JSON body of POST. `descricao` is nullable as well as optional,
      so `None` stands for it left out or `null` alike. */
  datatype SessionBody = SessionBody(titulo: Json<string>, descricao: Option<string>,
                                     comunidadeId: Json<int>,
                                     dataInicio: Json<string>, dataFim: Json<string>,
                                     ativa: Json<bool>)

  const TitleRequired := "Título é obrigatório"
  const CommunityRequired := "Comunidade é obrigatória"
  const StartInvalid := "Data de início inválida"
  const StartRequired := "Data de início é obrigatória"
  const EndInvalid := "Data de fim inválida"
  const EndRequired := "Data de fim é obrigatória"

  /** `/^\d{4}-\d{2}-\d{2}T\d{2}:\d{2}$/`. */
  predicate DateShape(s: string)
  {
    |s| == 16 && forall i :: 0 <= i < 16 ==> DateSlot(i, s[i])
  }

  /** What the pattern admits at position `i`. */
  predicate DateSlot(i: int, c: char)
  {
    if i == 4 || i == 7 then c == '-'
    else if i == 10 then c == 'T'
    else if i == 13 then c == ':'
    else IsDigit(c)
  }

  /** The issues of a required non-empty string: `Required` when absent,
      the type message for `null`, the schema's message when empty. */
  function TitleIssues(t: Json<string>): (r: seq<string>)
    ensures |r| == 0 <==> t.Given? && |t.value| >= 1
    ensures t.Null? ==> r == [NullString]
  {
    match t
    case Absent => ["Required"]
    case Null => [NullString]
    case Given(s) => if |s| < 1 then [TitleRequired] else []
  }

  /** `z.number().int().positive(...)` on `comunidade_id`. */
  function CommunityIssues(c: Json<int>): (r: seq<string>)
    ensures |r| == 0 <==> c.Given? && c.value > 0
    ensures c.Null? ==> r == [NullNumber]
  {
    match c
    case Absent => ["Required"]
    case Null => [NullNumber]
    case Given(n) => if n <= 0 then [CommunityRequired] else []
  }

  /** `z.boolean().optional().default(true)`: the default stands in only
      for a member left out, so `null` is refused. */
  function ActiveIssues(x: Json<bool>): (r: seq<string>)
    ensures |r| == 0 <==> !x.Null?
  {
    if x.Null? then [NullBoolean] else []
  }

  /** The issues of one date field: the string type, `min(1)` and the
      pattern each add their own; the schema's own message replaces the
      type message, for a member left out and for `null` alike. */
  function DateIssues(d: Json<string>, invalid: string, required: string): (r: seq<string>)
    ensures |r| == 0 <==> d.Given? && DateShape(d.value)
    ensures !d.Given? ==> r == [invalid]
  {
    if !d.Given? then [invalid]
    else (if |d.value| < 1 then [required] else []) + (if !DateShape(d.value) then [invalid] else [])
  }

  /** The issues `sessaoSchema` reports, in field order. */
  function SessionBodyIssues(b: SessionBody): (r: seq<string>)
    ensures |r| == 0 <==>
      && b.titulo.Given? && |b.titulo.value| >= 1
      && b.comunidadeId.Given? && b.comunidadeId.value > 0
      && b.dataInicio.Given? && DateShape(b.dataInicio.value)
      && b.dataFim.Given? && DateShape(b.dataFim.value)
      && !b.ativa.Null?
  {
    TitleIssues(b.titulo)
    + CommunityIssues(b.comunidadeId)
    + DateIssues(b.dataInicio, StartInvalid, StartRequired)
    + DateIssues(b.dataFim, EndInvalid, EndRequired)
    + ActiveIssues(b.ativa)
  }

  /** The date transform throws, which is not a validation error: a field
      that matches the pattern but names no instant. */
  predicate DateThrows(d: Json<string>, toTime: string -> Option<int>)
  {
    d.Given? && DateShape(d.value) && toTime(d.value).None?
  }

  predicate BodyThrows(b: SessionBody, toTime: string -> Option<int>)
  {
    DateThrows(b.dataInicio, toTime) || DateThrows(b.dataFim, toTime)
  }

  /** The body passes the schema and both dates convert. */
  predicate BodyValid(b: SessionBody, toTime: string -> Option<int>)
  {
    |SessionBodyIssues(b)| == 0 && !BodyThrows(b, toTime)
  }

  // POST /api/sessoes

  const StaffOnly := "Apenas administradores e gestores podem criar sessões"
  const CommunityMissing := "Comunidade não encontrada"
  const NoPermission := "Você não tem permissão para criar sessões nesta comunidade"
  const ServerError := "Erro ao criar sessão"

  /** A non-ADMIN may open sessions in a community they created or belong
      to. */
  predicate MayOpenIn(st: Store, p: Payload, c: Community)
  {
    p.tipo == Admin || c.criadorId == p.usuarioId || IsMember(st, p.usuarioId, c.id)
  }

  /** Every check before the insert passes. */
  predicate SessionAuthorized(st: Store, a: Auth, b: SessionBody, toTime: string -> Option<int>)
  {
    && a.Valid? && BodyValid(b, toTime) && a.payload.tipo != Participante
    && FindCommunity(st, b.comunidadeId.value).Some?
    && MayOpenIn(st, a.payload, FindCommunity(st, b.comunidadeId.value).value)
  }

  /** POST /api/sessoes; `toTime` is `new Date(text + ':00Z')`, `None`
      when that is an invalid date. */
  function PostSession(st: Store, a: Auth, b: SessionBody, toTime: string -> Option<int>): (r: Outcome<(Session, Store)>)
    ensures r.Fail? && r.code == 401 <==> !a.Valid?
    ensures r == Fail(500, ServerError) <==> a.Valid? && BodyThrows(b, toTime)
    ensures r.Fail? && r.code == 400 <==>
      a.Valid? && !BodyThrows(b, toTime) && |SessionBodyIssues(b)| > 0
    ensures r == Fail(403, StaffOnly) <==>
      a.Valid? && BodyValid(b, toTime) && a.payload.tipo == Participante
    ensures r == Fail(404, CommunityMissing) <==>
      a.Valid? && BodyValid(b, toTime) && a.payload.tipo != Participante
      && FindCommunity(st, b.comunidadeId.value).None?
    ensures r == Fail(403, NoPermission) <==>
      a.Valid? && BodyValid(b, toTime) && a.payload.tipo != Participante
      && FindCommunity(st, b.comunidadeId.value).Some?
      && !MayOpenIn(st, a.payload, FindCommunity(st, b.comunidadeId.value).value)
    ensures r.Done? <==> SessionAuthorized(st, a, b, toTime)
    ensures r.Done? ==>
      var (s, st') := r.value;
      && r.code == 201
      && s.titulo == b.titulo.value && s.descricao == b.descricao
      && Some(s.dataInicio) == toTime(b.dataInicio.value)
      && Some(s.dataFim) == toTime(b.dataFim.value)
      && s.ativa == (b.ativa != Given(false))
      && s.criadorId == a.payload.usuarioId
      && s.comunidadeId == Some(b.comunidadeId.value)
      && (forall x :: x in st.sessions ==> x.id != s.id)
      && st' == st.(sessions := st.sessions + [s])
    ensures !r.Looping?
  {
    if !a.Valid? then AuthFailure(a)
    else if BodyThrows(b, toTime) then Fail(500, ServerError)
    else if |SessionBodyIssues(b)| > 0 then
      var msg := JoinWith(SessionBodyIssues(b), ", ");
      Fail(400, msg)
    else if a.payload.tipo == Participante then Fail(403, StaffOnly)
    else
      match FindCommunity(st, b.comunidadeId.value)
      case None => Fail(404, CommunityMissing)
      case Some(c) =>
        if !MayOpenIn(st, a.payload, c) then Fail(403, NoPermission)
        else
          var s := Session(FreshId(st.sessions, (x: Session) => x.id), b.titulo.value, b.descricao,
                           toTime(b.dataInicio.value).value, toTime(b.dataFim.value).value,
                           b.ativa != Given(false), a.payload.usuarioId, Some(b.comunidadeId.value));
          Done(201, (s, st.(sessions := st.sessions + [s])))
  }

  /** Nothing compares the two dates: an authorised request whose end lies
      before its start creates the session all the same, and that session
      never accepts a vote. */
  lemma EndBeforeStartAccepted(st: Store, a: Auth, b: SessionBody, toTime: string -> Option<int>)
    requires SessionAuthorized(st, a, b, toTime)
    requires toTime(b.dataFim.value).value < toTime(b.dataInicio.value).value
    ensures PostSession(st, a, b, toTime).Done?
    ensures var s := PostSession(st, a, b, toTime).value.0;
      s.dataFim < s.dataInicio && forall now :: !Votes.SessionLive(s, now)
  {
  }

  /** `ativa` defaults to true only when left out: an otherwise valid body
      with `ativa: null` is refused with 400, whoever sends it. */
  lemma NullActiveRefused(st: Store, a: Auth, b: SessionBody, toTime: string -> Option<int>)
    requires a.Valid? && !BodyThrows(b, toTime) && b.ativa.Null?
    ensures NullBoolean in SessionBodyIssues(b)
    ensures PostSession(st, a, b, toTime).code == 400
  {
  }

  /** A PARTICIPANTE learns about a bad body before learning they may not
      create sessions. */
  lemma ParticipantOrder(st: Store, p: Payload, b: SessionBody, toTime: string -> Option<int>)
    requires p.tipo == Participante && !BodyThrows(b, toTime)
    ensures |SessionBodyIssues(b)| > 0 ==> PostSession(st, Valid(p), b, toTime).code == 400
    ensures |SessionBodyIssues(b)| == 0 ==> PostSession(st, Valid(p), b, toTime) == Fail(403, StaffOnly)
  {
  }

  // GET /api/sessoes

  /** The `ativa` and `comunidade_id` query filters; `comunidadeQ` is the
      parsed value, `None` when the parameter is absent or empty. */
  predicate SessionMatches(s: Session, ativaQ: Option<string>, comunidadeQ: Option<int>)
  {
    && (ativaQ.Some? ==> s.ativa == (ativaQ.value == "true"))
    && (comunidadeQ.Some? ==> s.comunidadeId == Some(comunidadeQ.value))
  }

  /** GET /api/sessoes, ordered by ascending id. */
  function GetSessions(st: Store, a: Auth, ativaQ: Option<string>, comunidadeQ: Option<int>): (r: Outcome<seq<Session>>)
    ensures r.Fail? <==> !a.Valid?
    ensures r.Fail? ==> r.code == 401
    ensures r.Done? ==> r.code == 200 && SortedBy(r.value, (s: Session) => s.id)
    ensures r.Done? ==> forall s :: s in r.value <==>
      s in st.sessions && SessionMatches(s, ativaQ, comunidadeQ) && SessionVisible(st, a.payload, s)
    ensures r.Done? ==> |r.value| <= |st.sessions|
  {
    if !a.Valid? then AuthFailure(a)
    else
      var p := a.payload;
      var keep := (s: Session) =>
        && SessionMatches(s, ativaQ, comunidadeQ)
        && match p.tipo
           case Admin => true
           case Gestor => GestorReaches(st, p.usuarioId, s)
           case Participante => MemberReaches(st, p.usuarioId, s);
      var found := Filter(st.sessions, keep);
      var r := SortBy(found, (s: Session) => s.id);
      SortedElements(found, r);
      Done(200, r)
  }

  /** A non-ADMIN, non-GESTOR caller never sees a session without a
      community. */
  lemma CommunitylessHidden(st: Store, a: Auth, ativaQ: Option<string>, comunidadeQ: Option<int>, s: Session)
    requires a.Valid? && a.payload.tipo == Participante && s.comunidadeId.None?
    ensures s !in GetSessions(st, a, ativaQ, comunidadeQ).value
  {
  }
}
