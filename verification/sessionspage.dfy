/** The sessions page: the status badge of a session card, the set of
    sessions the caller has voted in, which controls a card shows, the
    counters above the list, and the session form with the body it posts. */
module SessionsPage {

  import opened Wrappers
  import opened Seqs
  import opened Domain
  import Votes
  import Results
  import Sessions

  /** The badge of `SessaoStatus`. */
  datatype Badge = Encerrada | Inativa | Ativa

  /** `SessaoStatus` at instant `now`: ended once the end lies strictly in
      the past, whatever `ativa` says; otherwise by `ativa`. The start is
      never looked at. */
  function Status(s: Session, now: int): (b: Badge)
  {
    if s.dataFim < now then Encerrada
    else if !s.ativa then Inativa
    else Ativa
  }

  /** The badge against the vote route's rule: a session that accepts votes
      shows "Ativa", one that shows "Encerrada" or "Inativa" accepts none,
      and one that shows "Ativa" accepts votes exactly when it has started. */
  lemma BadgeVersusLive(s: Session, now: int)
    ensures Votes.SessionLive(s, now) ==> Status(s, now) == Ativa
    ensures Status(s, now) != Ativa ==> !Votes.SessionLive(s, now)
    ensures Status(s, now) == Ativa ==> (Votes.SessionLive(s, now) <==> s.dataInicio <= now)
  {
  }

  /** `sessoesComVoto`: the sessions of the caller's own votes among those
      loaded, empty unless the caller is a PARTICIPANTE. */
  function VotedSessions(votos: seq<Vote>, me: Option<Payload>): (r: set<int>)
    ensures me.None? || me.value.tipo != Participante ==> r == {}
  {
    if me.None? || me.value.tipo != Participante then {}
    else set v | v in votos && v.usuarioId == me.value.usuarioId :: v.sessaoId
  }

  /** With the votes the vote route lists for a PARTICIPANTE, a card shows
      "Ver Resultados" exactly for the sessions whose results the results
      route hands out to that caller. */
  lemma ResultsButtonMatchesGate(st: Store, p: Payload, sid: int)
    requires p.tipo == Participante
    ensures var votos := Votes.GetVotes(st, Valid(p), None, None).value;
      sid in VotedSessions(votos, Some(p)) <==> Results.GetResults(st, Valid(p), Some(sid)).Done?
  {
    var votos := Votes.GetVotes(st, Valid(p), None, None).value;
    if Votes.HasVoted(st, p.usuarioId, sid) {
      var v :| v in st.votes && v.usuarioId == p.usuarioId && v.sessaoId == sid;
      assert v in votos;
    }
  }

  /** The edit and delete buttons: an ADMIN sees them on every card, anyone
      else on the sessions they created. */
  predicate ShowsOwnerControls(me: Option<Payload>, s: Session)
  {
    me.Some? && (me.value.tipo == Admin || s.criadorId == me.value.usuarioId)
  }

  /** The session the route creates shows its creator the owner controls. */
  lemma CreatorSeesControls(st: Store, a: Auth, b: Sessions.SessionBody, toTime: string -> Option<int>)
    requires Sessions.PostSession(st, a, b, toTime).Done?
    ensures ShowsOwnerControls(Some(a.payload), Sessions.PostSession(st, a, b, toTime).value.0)
  {
  }

  /** `podeCriar`: the "Nova Sessão" button. */
  predicate MayCreate(me: Option<Payload>)
  {
    me.Some? && (me.value.tipo == Admin || me.value.tipo == Gestor)
  }

  /** For a body the route accepts, the route refuses the caller as not
      staff exactly when the page hides the create button. */
  lemma CreateButtonAgrees(st: Store, p: Payload, b: Sessions.SessionBody, toTime: string -> Option<int>)
    requires Sessions.BodyValid(b, toTime)
    ensures Sessions.PostSession(st, Valid(p), b, toTime) == Fail(403, Sessions.StaffOnly) <==> !MayCreate(Some(p))
  {
  }

  /** The three counters above the list. */
  datatype Counters = Counters(total: nat, ativas: nat, encerradas: int)

  function IsActive(s: Session): bool { s.ativa }

  function IsInactive(s: Session): bool { !s.ativa }

  function Always(s: Session): bool { true }

  /** `sessoes.length`, `sessoesAtivas` and `sessoesEncerradas`, the last
      being the length minus the active ones. */
  function CountSessions(ss: seq<Session>): (c: Counters)
    ensures c.total == c.ativas + c.encerradas
    ensures c.encerradas == Count(ss, IsInactive)
  {
    var ativas := Count(ss, IsActive);
    CountDisjoint(ss, IsActive, IsInactive, Always);
    FilterAll(ss, Always);
    Counters(|ss|, ativas, |ss| - ativas)
  }

  /** The "Encerradas" counter counts the sessions switched off, not those
      whose badge says "Encerrada": an active session past its end is shown
      as ended and counted as active. */
  lemma EndedCounterCountsInactive(s: Session, now: int)
    requires s.ativa && s.dataFim < now
    ensures Status(s, now) == Encerrada
    ensures CountSessions([s]).encerradas == 0 && CountSessions([s]).ativas == 1
  {
    assert Filter([s], IsActive) == [s];
  }

  // The session form

  const StartRequired := "Data de início é obrigatória"
  const EndRequired := "Data de fim é obrigatória"

  /** The form's values; the community is optional and only offered when
      the caller belongs to some community. */
  datatype SessionForm = SessionForm(titulo: string, descricao: string, comunidadeId: Option<int>,
                                     dataInicio: string, dataFim: string, ativa: bool)

  /** The page's `formSchema`: three non-empty strings. */
  function FormIssues(f: SessionForm): (r: seq<string>)
    ensures |r| == 0 <==> f.titulo != "" && f.dataInicio != "" && f.dataFim != ""
  {
    (if |f.titulo| < 1 then [Sessions.TitleRequired] else [])
    + (if |f.dataInicio| < 1 then [StartRequired] else [])
    + (if |f.dataFim| < 1 then [EndRequired] else [])
  }

  /** The body `handleSalvar` posts: an empty description becomes `null`. */
  function FormBody(f: SessionForm): (b: Sessions.SessionBody)
    ensures b.descricao == Nullable(Some(f.descricao))
  {
    Sessions.SessionBody(Given(f.titulo), if f.descricao == "" then None else Some(f.descricao),
                         if f.comunidadeId.Some? then Given(f.comunidadeId.value) else Absent,
                         Given(f.dataInicio), Given(f.dataFim), Given(f.ativa))
  }

  /** The form lets a session without a community through, and the route
      refuses it with 400: it demands a positive community id. */
  lemma NoCommunityRefused(st: Store, p: Payload, f: SessionForm, toTime: string -> Option<int>)
    requires |FormIssues(f)| == 0 && f.comunidadeId.None?
    requires !Sessions.BodyThrows(FormBody(f), toTime)
    ensures Sessions.PostSession(st, Valid(p), FormBody(f), toTime).code == 400
  {
  }

  /** A form the page accepts, with a community picked and dates in the
      `datetime-local` shape, passes the route's schema. */
  lemma FormPassesSchema(f: SessionForm)
    requires |FormIssues(f)| == 0 && f.comunidadeId.Some? && f.comunidadeId.value > 0
    requires Sessions.DateShape(f.dataInicio) && Sessions.DateShape(f.dataFim)
    ensures |Sessions.SessionBodyIssues(FormBody(f))| == 0
  {
  }
}
