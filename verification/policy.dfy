/** Role-scoped visibility shared by the listing handlers: the same session
    filter is written out in the sessions, projects and votes routes. */
module Policy {

  import opened Wrappers
  import opened Domain

  /** A GESTOR reaches the sessions they created and the sessions of the
      communities they created. */
  predicate GestorReaches(st: Store, usuarioId: int, s: Session)
  {
    s.criadorId == usuarioId
    || (SessionCommunity(st, s).Some? && SessionCommunity(st, s).value.criadorId == usuarioId)
  }

  /** Any other non-ADMIN caller reaches the sessions of the communities they
      belong to; a session without a community is reached by nobody. */
  predicate MemberReaches(st: Store, usuarioId: int, s: Session)
  {
    SessionCommunity(st, s).Some? && IsMember(st, usuarioId, s.comunidadeId.value)
  }

  /** Which sessions (and so which projects) a caller may list. */
  predicate SessionVisible(st: Store, p: Payload, s: Session)
  {
    match p.tipo
    case Admin => true
    case Gestor => GestorReaches(st, p.usuarioId, s)
    case Participante => MemberReaches(st, p.usuarioId, s)
  }

  /** Which votes a caller may list: a PARTICIPANTE only their own, a GESTOR
      those of the sessions they reach, an ADMIN all. */
  predicate VoteVisible(st: Store, p: Payload, v: Vote)
  {
    match p.tipo
    case Participante => v.usuarioId == p.usuarioId
    case Gestor => FindSession(st, v.sessaoId).Some? && GestorReaches(st, p.usuarioId, FindSession(st, v.sessaoId).value)
    case Admin => true
  }

  /** Which projects a caller may list: an ADMIN all, anyone else those of
      the sessions they may list. */
  predicate ProjectVisible(st: Store, p: Payload, x: Project)
  {
    p.tipo == Admin || (FindSession(st, x.sessaoId).Some? && SessionVisible(st, p, FindSession(st, x.sessaoId).value))
  }
}
