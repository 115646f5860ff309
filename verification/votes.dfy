/** The votes route: the ordered eligibility pipeline of POST and the
    role-scoped listing of GET. */
module Votes {

  import opened Wrappers
  import opened Seqs
  import opened Sorting
  import opened Text
  import opened Domain
  import opened Policy

  /** The JSON body of POST; a field is `None` when it is absent. */
  datatype VoteBody = VoteBody(comentario: Option<string>, sessaoId: Option<int>, projetoId: Option<int>)

  /** The issues `votoSchema` reports, in field order. */
  function VoteBodyIssues(b: VoteBody): (r: seq<string>)
    ensures |r| == 0 <==> b.sessaoId.Some? && b.projetoId.Some?
  {
    (if b.sessaoId.None? then ["Required"] else []) + (if b.projetoId.None? then ["Required"] else [])
  }

  /** A session accepts votes while it is active and `now` lies in
      `[dataInicio, dataFim]`, both ends included. */
  predicate SessionLive(s: Session, now: int)
  {
    s.ativa && s.dataInicio <= now && now <= s.dataFim
  }

  /** JavaScript truthiness of `sessao.comunidade_id`. */
  predicate HasCommunity(s: Session)
  {
    s.comunidadeId.Some? && s.comunidadeId.value != 0
  }

  /** The membership check: a session without a community admits everybody;
      otherwise the community must exist and the voter belong to it. */
  predicate MayVoteIn(st: Store, usuarioId: int, s: Session)
  {
    !HasCommunity(s) || (SessionCommunity(st, s).Some? && IsMember(st, usuarioId, s.comunidadeId.value))
  }

  predicate ProjectInSession(st: Store, projetoId: int, sessaoId: int)
  {
    exists p :: p in st.projects && p.id == projetoId && p.sessaoId == sessaoId
  }

  predicate HasVoted(st: Store, usuarioId: int, sessaoId: int)
  {
    exists v :: v in st.votes && v.usuarioId == usuarioId && v.sessaoId == sessaoId
  }

  const NotVoter := "Apenas participantes podem votar"
  const SessionMissing := "Sessão não encontrada"
  const NotLive := "A sessão de votação não está ativa"
  const NotMember := "Você não é membro desta comunidade"
  const ProjectMissing := "Projeto não encontrado nesta sessão"
  const AlreadyVoted := "Este participante já votou nesta sessão"

  /** The checks up to and including the body schema pass. */
  predicate ReachesLookup(a: Auth, b: VoteBody)
  {
    a.Valid? && a.payload.tipo == Participante && b.sessaoId.Some? && b.projetoId.Some?
  }

  /** Every check of the pipeline passes: the request reaches the insert. */
  predicate Eligible(st: Store, a: Auth, now: int, b: VoteBody)
  {
    && ReachesLookup(a, b)
    && FindSession(st, b.sessaoId.value).Some?
    && SessionLive(FindSession(st, b.sessaoId.value).value, now)
    && MayVoteIn(st, a.payload.usuarioId, FindSession(st, b.sessaoId.value).value)
    && ProjectInSession(st, b.projetoId.value, b.sessaoId.value)
  }

  /** POST /api/votos. */
  function PostVote(st: Store, a: Auth, now: int, b: VoteBody): (r: Outcome<(Vote, Store)>)
    ensures !a.Valid? ==> r.Fail? && r.code == 401
    ensures a.Valid? && a.payload.tipo != Participante ==> r == Fail(403, NotVoter)
    ensures a.Valid? && a.payload.tipo == Participante && !(b.sessaoId.Some? && b.projetoId.Some?) ==>
      r.Fail? && r.code == 400
    ensures r == Fail(404, SessionMissing) <==>
      ReachesLookup(a, b) && FindSession(st, b.sessaoId.value).None?
    ensures r == Fail(400, NotLive) <==>
      ReachesLookup(a, b) && FindSession(st, b.sessaoId.value).Some?
      && !SessionLive(FindSession(st, b.sessaoId.value).value, now)
    ensures r == Fail(403, NotMember) <==>
      ReachesLookup(a, b) && FindSession(st, b.sessaoId.value).Some?
      && SessionLive(FindSession(st, b.sessaoId.value).value, now)
      && !MayVoteIn(st, a.payload.usuarioId, FindSession(st, b.sessaoId.value).value)
    ensures r == Fail(404, ProjectMissing) <==>
      ReachesLookup(a, b) && FindSession(st, b.sessaoId.value).Some?
      && SessionLive(FindSession(st, b.sessaoId.value).value, now)
      && MayVoteIn(st, a.payload.usuarioId, FindSession(st, b.sessaoId.value).value)
      && !ProjectInSession(st, b.projetoId.value, b.sessaoId.value)
    ensures r == Fail(409, AlreadyVoted) <==>
      Eligible(st, a, now, b) && HasVoted(st, a.payload.usuarioId, b.sessaoId.value)
    ensures r.Done? <==> Eligible(st, a, now, b) && !HasVoted(st, a.payload.usuarioId, b.sessaoId.value)
    ensures r.Done? ==>
      && r.code == 201
      && r.value.0.usuarioId == a.payload.usuarioId
      && r.value.0.sessaoId == b.sessaoId.value
      && r.value.0.projetoId == b.projetoId.value
      && r.value.0.comentario == b.comentario
      && r.value.0.dataVoto == now
      && r.value.1 == st.(votes := st.votes + [r.value.0])
    ensures r.Done? && OneVotePerUserSession(st.votes) ==> OneVotePerUserSession(r.value.1.votes)
  {
    if !a.Valid? then AuthFailure(a)
    else if a.payload.tipo != Participante then Fail(403, NotVoter)
    else if b.sessaoId.None? || b.projetoId.None? then 
      var issues := VoteBodyIssues(b);
      assert issues == ["Required"] || issues == ["Required", "Required"];
      var msg := JoinWith(issues, ", ");
      assert msg == "Required" || msg == "Required" + ", " + "Required" by {
        if |issues| == 1 {
          assert msg == issues[0];
        } else {
          assert issues[1..] == ["Required"];
          assert JoinWith(issues[1..], ", ") == "Required";
        }
      }
      assert msg[0] == 'R' != NotLive[0];
      Fail(400, msg)
    else
      var uid := a.payload.usuarioId;
      var sid := b.sessaoId.value;
      var pid := b.projetoId.value;
      match FindSession(st, sid)
      case None => Fail(404, SessionMissing)
      case Some(s) =>
        if !s.ativa || s.dataInicio > now || s.dataFim < now then Fail(400, NotLive)
        else if HasCommunity(s) && (SessionCommunity(st, s).None? || !IsMember(st, uid, s.comunidadeId.value)) then
          Fail(403, NotMember)
        else if !ProjectInSession(st, pid, sid) then Fail(404, ProjectMissing)
        else
          match InsertVote(st, uid, sid, pid, b.comentario, now)
          case Conflict(_) => Fail(409, AlreadyVoted)
          case Written(v, st') => Done(201, (v, st'))
  }

  /** GET /api/votos, with the optional `sessao_id` and `projeto_id` query
      parameters; the result is ordered by ascending id. */
  function GetVotes(st: Store, a: Auth, sessaoQ: Option<int>, projetoQ: Option<int>): (r: Outcome<seq<Vote>>)
    ensures !a.Valid? <==> r.Fail?
    ensures r.Fail? ==> r.code == 401
    ensures r.Done? ==> r.code == 200 && SortedBy(r.value, (v: Vote) => v.id)
    ensures r.Done? ==> forall v :: v in r.value <==>
      && v in st.votes
      && (sessaoQ.Some? ==> v.sessaoId == sessaoQ.value)
      && (projetoQ.Some? ==> v.projetoId == projetoQ.value)
      && VoteVisible(st, a.payload, v)
    ensures r.Done? ==> |r.value| <= |st.votes|
  {
    if !a.Valid? then AuthFailure(a)
    else
      var keep := (v: Vote) =>
        && (sessaoQ.Some? ==> v.sessaoId == sessaoQ.value)
        && (projetoQ.Some? ==> v.projetoId == projetoQ.value)
        && match a.payload.tipo
           case Participante => v.usuarioId == a.payload.usuarioId
           case Gestor => GestorReaches(st, a.payload.usuarioId, FindSession(st, v.sessaoId).GetOr(Session(0, "", None, 0, 0, false, 0, None)))
                            && FindSession(st, v.sessaoId).Some?
           case Admin => true;
      var found := Filter(st.votes, keep);
      var r := SortBy(found, (v: Vote) => v.id);
      SortedElements(found, r);
      Done(200, r)
  }
}
