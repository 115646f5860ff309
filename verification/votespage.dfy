/** The votes page: the three list filters, the sessions its vote form
    offers, the form's checks and the body it posts, and the warning shown
    for a session already voted in. */
module VotesPage {

  import opened Wrappers
  import opened Seqs
  import opened Domain
  import Votes
  import SessionsPage

  /** One filter select: "todas"/"todos", or the id of an option (the
      option values are ids written out, so `parseInt` gives them back). */
  datatype Pick = Any | Id(id: int)

  predicate Matches(p: Pick, x: int)
  {
    p.Any? || x == p.id
  }

  predicate VoteMatches(v: Vote, fs: Pick, fp: Pick, fu: Pick)
  {
    Matches(fs, v.sessaoId) && Matches(fp, v.projetoId) && Matches(fu, v.usuarioId)
  }

  /** `votosFiltrados`: the loaded votes that match the session, project
      and participant filters, in the order loaded. */
  function Filtered(votos: seq<Vote>, fs: Pick, fp: Pick, fu: Pick): (r: seq<Vote>)
    ensures forall v :: v in r <==> v in votos && VoteMatches(v, fs, fp, fu)
    ensures IsSubsequence(r, votos)
    ensures fs.Any? && fp.Any? && fu.Any? ==> r == votos
  {
    var keep := (v: Vote) => VoteMatches(v, fs, fp, fu);
    FilterIsSubsequence(votos, keep);
    assert fs.Any? && fp.Any? && fu.Any? ==> Filter(votos, keep) == votos by {
      if fs.Any? && fp.Any? && fu.Any? {
        FilterAll(votos, keep);
      }
    }
    Filter(votos, keep)
  }

  /** Filtering on the page by session and project keeps the same votes as
      asking the vote route for them with its query parameters. */
  lemma PageFilterIsQuery(st: Store, a: Auth, sid: int, pid: int)
    requires a.Valid?
    ensures var all := Votes.GetVotes(st, a, None, None).value;
      var asked := Votes.GetVotes(st, a, Some(sid), Some(pid)).value;
      forall v :: v in Filtered(all, Id(sid), Id(pid), Any) <==> v in asked
  {
  }

  /** The sessions the form offers: the active ones among those loaded. */
  function Offered(sessoes: seq<Session>): (r: seq<Session>)
    ensures forall s :: s in r <==> s in sessoes && s.ativa
  {
    Filter(sessoes, (s: Session) => s.ativa)
  }

  /** A session the form does not offer, because it is switched off, turns
      every vote down with 400. */
  lemma UnofferedRefused(st: Store, p: Payload, now: int, b: Votes.VoteBody)
    requires p.tipo == Participante && b.sessaoId.Some? && b.projetoId.Some?
    requires FindSession(st, b.sessaoId.value).Some?
    requires FindSession(st, b.sessaoId.value).value !in Offered(st.sessions)
    ensures Votes.PostVote(st, Valid(p), now, b) == Fail(400, Votes.NotLive)
  {
  }

  // The vote form

  const PickSession := "Selecione uma sessão"
  const PickProject := "Selecione um projeto"

  /** The form's values; both selects start at 0. */
  datatype VoteForm = VoteForm(comentario: string, sessaoId: int, projetoId: int)

  /** The form's `formSchema`: both ids at least 1. */
  function FormIssues(f: VoteForm): (r: seq<string>)
    ensures |r| == 0 <==> f.sessaoId >= 1 && f.projetoId >= 1
    ensures f.projetoId < 1 ==> PickProject in r
  {
    (if f.sessaoId < 1 then [PickSession] else []) + (if f.projetoId < 1 then [PickProject] else [])
  }

  /** Choosing a session resets the project to 0. */
  function ChooseSession(f: VoteForm, sid: int): (g: VoteForm)
    ensures g.sessaoId == sid && g.comentario == f.comentario
    ensures PickProject in FormIssues(g)
  {
    f.(sessaoId := sid, projetoId := 0)
  }

  function ChooseProject(f: VoteForm, pid: int): (g: VoteForm)
    ensures g.sessaoId == f.sessaoId && g.projetoId == pid && g.comentario == f.comentario
  {
    f.(projetoId := pid)
  }

  /** Whatever was picked before, a session then a project picked in that
      order is what the form submits. */
  lemma PickedInOrder(f: VoteForm, sid: int, pid: int)
    requires sid >= 1 && pid >= 1
    ensures |FormIssues(ChooseProject(ChooseSession(f, sid), pid))| == 0
    ensures FormIssues(ChooseSession(ChooseProject(f, pid), sid)) == [PickProject]
  {
  }

  /** The body `handleSalvar` posts: an absent comment is sent as the empty
      string, so it is never absent. */
  function FormBody(f: VoteForm): (b: Votes.VoteBody)
    ensures |Votes.VoteBodyIssues(b)| == 0
    ensures b.comentario.Some?
  {
    Votes.VoteBody(Some(f.comentario), Some(f.sessaoId), Some(f.projetoId))
  }

  /** A vote cast through the page stores the comment text, the empty one
      included. */
  lemma PageVoteKeepsComment(st: Store, a: Auth, now: int, f: VoteForm)
    requires Votes.PostVote(st, a, now, FormBody(f)).Done?
    ensures Votes.PostVote(st, a, now, FormBody(f)).value.0.comentario == Some(f.comentario)
    ensures Votes.PostVote(st, a, now, FormBody(f)).value.0.sessaoId == f.sessaoId
  {
  }

  /** The "already voted" warning: a session is chosen and lies in
      `sessoesComVoto`. */
  predicate ShowsWarning(f: VoteForm, voted: set<int>)
  {
    f.sessaoId != 0 && f.sessaoId in voted
  }

  /** The warning is right: when the page shows it to a PARTICIPANTE, the
      route will not record the vote. It does not block the submission. */
  lemma WarningMeansRefused(st: Store, p: Payload, now: int, f: VoteForm)
    requires p.tipo == Participante
    requires ShowsWarning(f, SessionsPage.VotedSessions(Votes.GetVotes(st, Valid(p), None, None).value, Some(p)))
    ensures !Votes.PostVote(st, Valid(p), now, FormBody(f)).Done?
  {
    SessionsPage.ResultsButtonMatchesGate(st, p, f.sessaoId);
  }
}
