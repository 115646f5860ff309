/** The entities of the relational store (users, communities, memberships,
    sessions, projects, votes), the token payload, the outcome of a request
    handler, and the store writes with their uniqueness constraints.
    Timestamps are integers; a missing relation is an `Option`. */
module Domain {

  import opened Wrappers
  import opened Seqs

  datatype Role = Admin | Gestor | Participante

  /** The spelling of a role in the `tipo` column and in the token payload. */
  function RoleName(r: Role): string
  {
    match r
    case Admin => "ADMIN"
    case Gestor => "GESTOR"
    case Participante => "PARTICIPANTE"
  }

  /** `z.enum(['ADMIN', 'GESTOR', 'PARTICIPANTE'])`. */
  function ParseRole(s: string): (r: Option<Role>)
    ensures r.Some? <==> s == "ADMIN" || s == "GESTOR" || s == "PARTICIPANTE"
    ensures r.Some? ==> RoleName(r.value) == s
  {
    if s == "ADMIN" then Some(Admin)
    else if s == "GESTOR" then Some(Gestor)
    else if s == "PARTICIPANTE" then Some(Participante)
    else None
  }

  lemma ParseRoleName(r: Role)
    ensures ParseRole(RoleName(r)) == Some(r)
  {
  }

  /** The landing page of each role. */
  function Dashboard(r: Role): string
  {
    match r
    case Admin => "/admin/dashboard"
    case Gestor => "/gestor/dashboard"
    case Participante => "/participante/dashboard"
  }

  datatype User = User(id: int, email: string, passwordHash: string, tipo: Role,
                       nome: Option<string>, cpf: Option<string>)

  datatype Community = Community(id: int, nome: string, descricao: Option<string>,
                                 codigo: string, criadorId: int)

  /** A row of the `participantes` table: `usuarioId` belongs to `comunidadeId`. */
  datatype Membership = Membership(usuarioId: int, comunidadeId: int)

  datatype Session = Session(id: int, titulo: string, descricao: Option<string>,
                             dataInicio: int, dataFim: int, ativa: bool,
                             criadorId: int, comunidadeId: Option<int>)

  datatype Project = Project(id: int, titulo: string, descricaoDetalhada: Option<string>,
                             autorResponsavel: Option<string>, sessaoId: int)

  datatype Vote = Vote(id: int, usuarioId: int, sessaoId: int, projetoId: int,
                       comentario: Option<string>, dataVoto: int)

  datatype Store = Store(users: seq<User>, communities: seq<Community>,
                         members: seq<Membership>, sessions: seq<Session>,
                         projects: seq<Project>, votes: seq<Vote>)

  /** The claims of a verified token. */
  datatype Payload = Payload(usuarioId: int, email: string, tipo: Role)

  /** What a handler learns from the cookie: no `auth_token`, a token that
      does not verify, or the verified payload. */
  datatype Auth = NoToken | BadToken | Valid(payload: Payload)

  /** A member of a JSON request body: left out, `null`, or a value. */
  datatype Json<+T> = Absent | Null | Given(value: T)

  /** Zod 3's messages for a `null` where a string, a number or a boolean
      is expected. */
  const NullString := "Expected string, received null"
  const NullNumber := "Expected number, received null"
  const NullBoolean := "Expected boolean, received null"

  /** The JSON response of a handler: a status with its data, or a status
      with the `error` message. `Looping` stands for a request that has not
      answered when the random source the model was given runs out. */
  datatype Outcome<+T> = Done(code: int, value: T) | Fail(code: int, error: string) | Looping

  /** The 401 answers shared by every authenticated handler. */
  function AuthFailure<T>(a: Auth): (r: Outcome<T>)
    requires !a.Valid?
    ensures r.Fail? && r.code == 401
  {
    if a.NoToken? then Fail(401, "Não autorizado") else Fail(401, "Token inválido ou expirado")
  }

  /** `value || null` on an optional string: absent and empty both become
      `null`. */
  function Nullable(s: Option<string>): (r: Option<string>)
    ensures r.None? <==> s.None? || s.value == ""
    ensures r.Some? ==> r == s
  {
    if s.Some? && s.value != "" then s else None
  }

  // Lookups

  function FindSession(st: Store, id: int): Option<Session>
  {
    Find(st.sessions, (s: Session) => s.id == id)
  }

  function FindCommunity(st: Store, id: int): Option<Community>
  {
    Find(st.communities, (c: Community) => c.id == id)
  }

  function FindUser(st: Store, id: int): Option<User>
  {
    Find(st.users, (u: User) => u.id == id)
  }

  predicate IsMember(st: Store, usuarioId: int, comunidadeId: int)
  {
    exists m :: m in st.members && m.usuarioId == usuarioId && m.comunidadeId == comunidadeId
  }

  /** The session's community, when it has one and the row exists. */
  function SessionCommunity(st: Store, s: Session): Option<Community>
  {
    if s.comunidadeId.Some? then FindCommunity(st, s.comunidadeId.value) else None
  }

  /** An autoincrement id: larger than every id already in the table. */
  function FreshId<T>(s: seq<T>, id: T -> int): (r: int)
    ensures r >= 1
    ensures forall i :: 0 <= i < |s| ==> id(s[i]) < r
  {
    if |s| == 0 then 1
    else
      var rest := FreshId(s[1..], id);
      assert forall i :: 1 <= i < |s| ==> s[i] == s[1..][i - 1];
      if id(s[0]) < rest then rest else id(s[0]) + 1
  }

  // Uniqueness constraints of the store

  /** The unique index on `votos (usuario_id, sessao_id)`. */
  predicate OneVotePerUserSession(vs: seq<Vote>)
  {
    forall i, j :: 0 <= i < j < |vs| ==>
      !(vs[i].usuarioId == vs[j].usuarioId && vs[i].sessaoId == vs[j].sessaoId)
  }

  /** The unique index on `participantes (usuario_id, comunidade_id)`. */
  predicate OneMembershipPerPair(ms: seq<Membership>)
  {
    forall i, j :: 0 <= i < j < |ms| ==> ms[i] != ms[j]
  }

  /** The unique index on `comunidades.codigo`. */
  predicate UniqueCodes(cs: seq<Community>)
  {
    forall i, j :: 0 <= i < j < |cs| ==> cs[i].codigo != cs[j].codigo
  }

  /** Every community creator is a member of the community (the create
      handler adds the membership right after the row). */
  predicate CreatorsAreMembers(st: Store)
  {
    forall c :: c in st.communities ==> IsMember(st, c.criadorId, c.id)
  }

  /** The foreign key of `participantes.comunidade_id`. */
  predicate MembersReferenceCommunities(st: Store)
  {
    forall m :: m in st.members ==> exists c :: c in st.communities && c.id == m.comunidadeId
  }

  /** A store write: the created row and the new store, or the unique
      constraint violation (Prisma's P2002) with the offending columns. */
  datatype Write<+T> = Written(item: T, store: Store) | Conflict(target: set<string>)

  function InsertVote(st: Store, usuarioId: int, sessaoId: int, projetoId: int,
                      comentario: Option<string>, now: int): (r: Write<Vote>)
    ensures r.Conflict? <==>
      exists v :: v in st.votes && v.usuarioId == usuarioId && v.sessaoId == sessaoId
    ensures r.Written? ==>
      && r.item.usuarioId == usuarioId && r.item.sessaoId == sessaoId
      && r.item.projetoId == projetoId && r.item.comentario == comentario
      && r.item.dataVoto == now
      && (forall v :: v in st.votes ==> v.id != r.item.id)
      && r.store == st.(votes := st.votes + [r.item])
    ensures r.Written? && OneVotePerUserSession(st.votes) ==> OneVotePerUserSession(r.store.votes)
  {
    if exists v :: v in st.votes && v.usuarioId == usuarioId && v.sessaoId == sessaoId then
      Conflict({"usuario_id", "sessao_id"})
    else
      var v := Vote(FreshId(st.votes, (x: Vote) => x.id), usuarioId, sessaoId, projetoId, comentario, now);
      var vs := st.votes + [v];
      assert forall i :: 0 <= i < |st.votes| ==> vs[i] == st.votes[i] && vs[i] in st.votes;
      Written(v, st.(votes := vs))
  }

  function InsertMembership(st: Store, usuarioId: int, comunidadeId: int): (r: Write<Membership>)
    ensures r.Conflict? <==> IsMember(st, usuarioId, comunidadeId)
    ensures r.Written? ==>
      && r.item == Membership(usuarioId, comunidadeId)
      && r.store == st.(members := st.members + [r.item])
    ensures r.Written? && OneMembershipPerPair(st.members) ==> OneMembershipPerPair(r.store.members)
  {
    var m := Membership(usuarioId, comunidadeId);
    if IsMember(st, usuarioId, comunidadeId) then
      Conflict({"usuario_id", "comunidade_id"})
    else
      var ms := st.members + [m];
      assert forall i :: 0 <= i < |st.members| ==> ms[i] == st.members[i] && ms[i] in st.members;
      Written(m, st.(members := ms))
  }

  /** A unique index on `comunidades.nome`, as the create handler's 409
      text implies. */
  predicate UniqueNames(cs: seq<Community>)
  {
    forall i, j :: 0 <= i < j < |cs| ==> cs[i].nome != cs[j].nome
  }

  /** The unique indexes on `comunidades.codigo` and `comunidades.nome`. */
  function InsertCommunity(st: Store, nome: string, descricao: Option<string>,
                           codigo: string, criadorId: int): (r: Write<Community>)
    ensures r.Conflict? <==>
      exists c :: c in st.communities && (c.nome == nome || c.codigo == codigo)
    ensures r.Written? ==>
      && r.item.nome == nome && r.item.descricao == descricao
      && r.item.codigo == codigo && r.item.criadorId == criadorId
      && (forall c :: c in st.communities ==> c.id != r.item.id)
      && r.store == st.(communities := st.communities + [r.item])
    ensures r.Written? && UniqueCodes(st.communities) ==> UniqueCodes(r.store.communities)
    ensures r.Written? && UniqueNames(st.communities) ==> UniqueNames(r.store.communities)
  {
    if exists c :: c in st.communities && (c.nome == nome || c.codigo == codigo) then
      Conflict(if exists c :: c in st.communities && c.nome == nome then {"nome"} else {"codigo"})
    else
      var c := Community(FreshId(st.communities, (x: Community) => x.id), nome, descricao, codigo, criadorId);
      var cs := st.communities + [c];
      assert forall i :: 0 <= i < |st.communities| ==> cs[i] == st.communities[i] && cs[i] in st.communities;
      Written(c, st.(communities := cs))
  }

  /** A unique index on `projetos (sessao_id, titulo)`, as the create
      handler's 409 text implies: no title twice in one session. */
  predicate UniqueTitlesPerSession(ps: seq<Project>)
  {
    forall i, j :: 0 <= i < j < |ps| ==> ps[i].sessaoId != ps[j].sessaoId || ps[i].titulo != ps[j].titulo
  }

  /** The unique index on `projetos (sessao_id, titulo)`. */
  function InsertProject(st: Store, titulo: string, descricao: Option<string>,
                         autor: Option<string>, sessaoId: int): (r: Write<Project>)
    ensures r.Conflict? <==>
      exists p :: p in st.projects && p.sessaoId == sessaoId && p.titulo == titulo
    ensures r.Written? ==>
      && r.item == Project(r.item.id, titulo, descricao, autor, sessaoId)
      && (forall p :: p in st.projects ==> p.id != r.item.id)
      && r.store == st.(projects := st.projects + [r.item])
    ensures r.Written? && UniqueTitlesPerSession(st.projects) ==> UniqueTitlesPerSession(r.store.projects)
  {
    if exists p :: p in st.projects && p.sessaoId == sessaoId && p.titulo == titulo then
      Conflict({"sessao_id", "titulo"})
    else
      var p := Project(FreshId(st.projects, (x: Project) => x.id), titulo, descricao, autor, sessaoId);
      var ps := st.projects + [p];
      assert forall i :: 0 <= i < |st.projects| ==> ps[i] == st.projects[i] && ps[i] in st.projects;
      Written(p, st.(projects := ps))
  }

  /** The unique index on `usuarios.email`. */
  predicate UniqueEmails(us: seq<User>)
  {
    forall i, j :: 0 <= i < j < |us| ==> us[i].email != us[j].email
  }

  /** The unique index on `usuarios.cpf`; null values never collide. */
  predicate UniqueCpfs(us: seq<User>)
  {
    forall i, j :: 0 <= i < j < |us| ==> us[i].cpf.None? || us[i].cpf != us[j].cpf
  }

  predicate EmailInUse(st: Store, email: string)
  {
    exists u :: u in st.users && u.email == email
  }

  predicate CpfInUse(st: Store, cpf: Option<string>)
  {
    cpf.Some? && exists u :: u in st.users && u.cpf == cpf
  }

  /** The unique indexes of `usuarios`. When both collide the email index
      is the one reported. */
  function InsertUser(st: Store, email: string, passwordHash: string, tipo: Role,
                      nome: Option<string>, cpf: Option<string>): (r: Write<User>)
    ensures r.Conflict? <==> EmailInUse(st, email) || CpfInUse(st, cpf)
    ensures r.Conflict? ==> ("cpf" in r.target <==> !EmailInUse(st, email))
    ensures r.Written? ==>
      && r.item == User(r.item.id, email, passwordHash, tipo, nome, cpf)
      && (forall u :: u in st.users ==> u.id != r.item.id)
      && r.store == st.(users := st.users + [r.item])
    ensures r.Written? && UniqueEmails(st.users) ==> UniqueEmails(r.store.users)
    ensures r.Written? && UniqueCpfs(st.users) ==> UniqueCpfs(r.store.users)
  {
    if EmailInUse(st, email) then Conflict({"email"})
    else if CpfInUse(st, cpf) then Conflict({"cpf"})
    else
      var u := User(FreshId(st.users, (x: User) => x.id), email, passwordHash, tipo, nome, cpf);
      var us := st.users + [u];
      assert forall i :: 0 <= i < |st.users| ==> us[i] == st.users[i] && us[i] in st.users;
      Written(u, st.(users := us))
  }
}
