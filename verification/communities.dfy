/** The community routes: creation by a GESTOR with a fresh invite code and
    the creator's own membership, the public listing, joining by code, and
    the caller's own communities. */
module Communities {

  import opened Wrappers
  import opened Seqs
  import opened Sorting
  import opened Domain
  import opened InviteCodes

  // Create: POST /api/comunidades

  /** The JSON body of POST; a field is `None` when it is absent. */
  datatype CommunityBody = CommunityBody(nome: Option<string>, descricao: Option<string>)

  const NameTooShort := "Nome deve ter no mínimo 3 caracteres"
  const NameTooLong := "String must contain at most 100 character(s)"
  const OnlyGestores := "Apenas gestores podem criar comunidades"
  const NameTaken := "Já existe uma comunidade com este nome"

  /** The issue `comunidadeSchema` reports, if any: `nome` is required and
      holds 3 to 100 characters. */
  function CommunityBodyIssue(b: CommunityBody): (r: Option<string>)
    ensures r.None? <==> b.nome.Some? && 3 <= |b.nome.value| <= 100
  {
    if b.nome.None? then Some("Required")
    else if |b.nome.value| < 3 then Some(NameTooShort)
    else if |b.nome.value| > 100 then Some(NameTooLong)
    else None
  }

  /** The codes the communities hold. */
  function Codes(st: Store): (r: set<string>)
    ensures forall code :: code in r <==> exists c :: c in st.communities && c.codigo == code
  {
    set c | c in st.communities :: c.codigo
  }

  /** The request reaches the code loop: a GESTOR with a valid body. */
  predicate MayCreate(a: Auth, b: CommunityBody)
  {
    a.Valid? && a.payload.tipo == Gestor && CommunityBodyIssue(b).None?
  }

  predicate NameInUse(st: Store, nome: string)
  {
    exists c :: c in st.communities && c.nome == nome
  }

  /** POST /api/comunidades; `draws` are the successive results of the
      random source. */
  function PostCommunity(st: Store, a: Auth, b: CommunityBody, draws: seq<Draw>): (r: Outcome<(Community, Store)>)
    ensures r.Fail? && r.code == 401 <==> !a.Valid?
    ensures r == Fail(403, OnlyGestores) <==> a.Valid? && a.payload.tipo != Gestor
    ensures r.Fail? && r.code == 400 <==>
      a.Valid? && a.payload.tipo == Gestor && CommunityBodyIssue(b).Some?
    ensures r.Looping? <==> MayCreate(a, b) && PickCode(Codes(st), draws).None?
    ensures MembersReferenceCommunities(st) ==>
      (r == Fail(409, NameTaken) <==>
         MayCreate(a, b) && PickCode(Codes(st), draws).Some? && NameInUse(st, b.nome.value))
    ensures MembersReferenceCommunities(st) ==>
      (r.Done? <==> MayCreate(a, b) && PickCode(Codes(st), draws).Some? && !NameInUse(st, b.nome.value))
    ensures r.Done? ==>
      var (c, st') := r.value;
      && r.code == 201
      && c.nome == b.nome.value
      && c.descricao == Nullable(b.descricao)
      && c.criadorId == a.payload.usuarioId
      && c.codigo == GenerateCode(draws[PickCode(Codes(st), draws).value])
      && c.codigo !in Codes(st)
      && (forall old_ :: old_ in st.communities ==> old_.id != c.id)
      && st' == st.(communities := st.communities + [c],
                    members := st.members + [Membership(a.payload.usuarioId, c.id)])
    ensures r.Done? && UniqueCodes(st.communities) ==> UniqueCodes(r.value.1.communities)
    ensures r.Done? && CreatorsAreMembers(st) ==> CreatorsAreMembers(r.value.1)
    ensures r.Done? && MembersReferenceCommunities(st) ==> MembersReferenceCommunities(r.value.1)
  {
    if !a.Valid? then AuthFailure(a)
    else if a.payload.tipo != Gestor then Fail(403, OnlyGestores)
    else if CommunityBodyIssue(b).Some? then Fail(400, CommunityBodyIssue(b).value)
    else
      var uid := a.payload.usuarioId;
      match PickCode(Codes(st), draws)
      case None => Looping
      case Some(k) =>
        var codigo := GenerateCode(draws[k]);
        match InsertCommunity(st, b.nome.value, Nullable(b.descricao), codigo, uid)
        case Conflict(_) => Fail(409, NameTaken)
        case Written(c, st1) =>
          match InsertMembership(st1, uid, c.id)
          case Conflict(_) =>
            // Only reachable when a membership names a community that does
            // not exist; the community row stays in the store then.
            Fail(409, NameTaken)
          case Written(m, st2) =>
            CreateKeepsCreatorsMembers(st, c, st2);
            CreateKeepsReferences(st, c, st2);
            Done(201, (c, st2))
  }

  lemma CreateKeepsCreatorsMembers(st: Store, c: Community, st2: Store)
    requires st2 == st.(communities := st.communities + [c],
                        members := st.members + [Membership(c.criadorId, c.id)])
    ensures CreatorsAreMembers(st) ==> CreatorsAreMembers(st2)
  {
    if CreatorsAreMembers(st) {
      forall x | x in st2.communities
        ensures IsMember(st2, x.criadorId, x.id)
      {
        if x == c {
          assert Membership(c.criadorId, c.id) in st2.members;
        } else {
          assert x in st.communities;
          var m :| m in st.members && m.usuarioId == x.criadorId && m.comunidadeId == x.id;
          assert m in st2.members;
        }
      }
    }
  }

  lemma CreateKeepsReferences(st: Store, c: Community, st2: Store)
    requires st2 == st.(communities := st.communities + [c],
                        members := st.members + [Membership(c.criadorId, c.id)])
    ensures MembersReferenceCommunities(st) ==> MembersReferenceCommunities(st2)
  {
    if MembersReferenceCommunities(st) {
      forall m | m in st2.members
        ensures exists x :: x in st2.communities && x.id == m.comunidadeId
      {
        if m in st.members {
          var x :| x in st.communities && x.id == m.comunidadeId;
          assert x in st2.communities;
        } else {
          assert c in st2.communities;
        }
      }
    }
  }

  // Listing: GET /api/comunidades

  /** A row of the public listing: `codigo` is left out of the selection for
      an ADMIN caller; `membros` and `sessoes` are the `_count`s. */
  datatype Listing = Listing(id: int, nome: string, descricao: Option<string>,
                             codigo: Option<string>, criadorId: int,
                             membros: nat, sessoes: nat)

  /** The caller holds a verified ADMIN token. */
  predicate IsAdminCaller(a: Auth)
  {
    a.Valid? && a.payload.tipo == Admin
  }

  function MemberCount(st: Store, id: int): nat
  {
    Count(st.members, (m: Membership) => m.comunidadeId == id)
  }

  function SessionCount(st: Store, id: int): nat
  {
    Count(st.sessions, (s: Session) => s.comunidadeId == Some(id))
  }

  /** The selected fields of one community. */
  function Listed(st: Store, c: Community, withCode: bool): (l: Listing)
    ensures l.id == c.id
    ensures l.codigo.Some? <==> withCode
    ensures withCode ==> l.codigo == Some(c.codigo)
  {
    Listing(c.id, c.nome, c.descricao, if withCode then Some(c.codigo) else None,
            c.criadorId, MemberCount(st, c.id), SessionCount(st, c.id))
  }

  /** GET /api/comunidades: no token is needed; every community is listed,
      newest id first, with its code unless the caller is an ADMIN. */
  function GetCommunities(st: Store, a: Auth): (r: Outcome<seq<Listing>>)
    ensures r.Done? && r.code == 200
    ensures |r.value| == |st.communities|
    ensures SortedDescBy(r.value, (l: Listing) => l.id)
    ensures forall l :: l in r.value <==>
      exists c :: c in st.communities && l == Listed(st, c, !IsAdminCaller(a))
    ensures forall i :: 0 <= i < |r.value| ==> (r.value[i].codigo.Some? <==> !IsAdminCaller(a))
  {
    Done(200, Listings(st, !IsAdminCaller(a)))
  }

  /** Every community, newest id first. */
  function Listings(st: Store, withCode: bool): (r: seq<Listing>)
    ensures |r| == |st.communities|
    ensures SortedDescBy(r, (l: Listing) => l.id)
    ensures forall l :: l in r <==> exists c :: c in st.communities && l == Listed(st, c, withCode)
    ensures forall i :: 0 <= i < |r| ==> (r[i].codigo.Some? <==> withCode)
  {
    var f := (c: Community) => Listed(st, c, withCode);
    SortedImage(st.communities, (c: Community) => c.id, f, (l: Listing) => l.id);
    Map(SortDescBy(st.communities, (c: Community) => c.id), f)
  }

  // Join: POST /api/comunidades/ingressar

  /** The JSON body of the join request. */
  datatype JoinBody = JoinBody(codigo: Option<string>)

  const CodeTooShort := "Código deve ter no mínimo 6 caracteres"
  const BadInvite := "Código de convite inválido"
  const AlreadyMember := "Você já é membro desta comunidade"

  /** `findUnique({ where: { codigo } })`: an exact match. */
  function FindByCode(st: Store, code: string): (r: Option<Community>)
    ensures r.Some? ==> r.value in st.communities && r.value.codigo == code
    ensures r.None? <==> code !in Codes(st)
  {
    Find(st.communities, (c: Community) => c.codigo == code)
  }

  /** With unique codes the lookup finds the one community holding it. */
  lemma FindByCodeUnique(st: Store, c: Community)
    requires UniqueCodes(st.communities)
    requires c in st.communities
    ensures FindByCode(st, c.codigo) == Some(c)
  {
    var r := FindByCode(st, c.codigo).value;
    var i :| 0 <= i < |st.communities| && st.communities[i] == r;
    var j :| 0 <= j < |st.communities| && st.communities[j] == c;
    if i != j {
      assert false;
    }
  }

  /** The body passes `ingressarSchema`. */
  predicate CodeValid(b: JoinBody)
  {
    b.codigo.Some? && |b.codigo.value| >= 6
  }

  /** The body is valid and names an existing community. */
  predicate CodeFound(st: Store, a: Auth, b: JoinBody)
  {
    a.Valid? && CodeValid(b) && FindByCode(st, b.codigo.value).Some?
  }

  /** POST /api/comunidades/ingressar; any role may join. */
  function JoinByCode(st: Store, a: Auth, b: JoinBody): (r: Outcome<(Membership, Store)>)
    ensures r.Fail? && r.code == 401 <==> !a.Valid?
    ensures r.Fail? && r.code == 400 <==>
      a.Valid? && (!CodeValid(b)
                   || (CodeFound(st, a, b) && IsMember(st, a.payload.usuarioId, FindByCode(st, b.codigo.value).value.id)))
    ensures r == Fail(404, BadInvite) <==> a.Valid? && CodeValid(b) && FindByCode(st, b.codigo.value).None?
    ensures r.Done? <==>
      CodeFound(st, a, b) && !IsMember(st, a.payload.usuarioId, FindByCode(st, b.codigo.value).value.id)
    ensures r.Done? ==>
      && r.code == 201
      && r.value.0.usuarioId == a.payload.usuarioId
      && r.value.0.comunidadeId == FindByCode(st, b.codigo.value).value.id
      && r.value.1 == st.(members := st.members + [r.value.0])
    ensures r.Done? && OneMembershipPerPair(st.members) ==> OneMembershipPerPair(r.value.1.members)
    ensures r.Done? && CreatorsAreMembers(st) ==> CreatorsAreMembers(r.value.1)
    ensures r.Done? && MembersReferenceCommunities(st) ==> MembersReferenceCommunities(r.value.1)
    ensures !r.Looping?
  {
    if !a.Valid? then AuthFailure(a)
    else if b.codigo.None? then Fail(400, "Required")
    else if |b.codigo.value| < 6 then Fail(400, CodeTooShort)
    else
      var uid := a.payload.usuarioId;
      match FindByCode(st, b.codigo.value)
      case None => Fail(404, BadInvite)
      case Some(c) =>
        if IsMember(st, uid, c.id) then Fail(400, AlreadyMember)
        else
          match InsertMembership(st, uid, c.id)
          case Conflict(_) => Fail(409, AlreadyMember)
          case Written(m, st') =>
            JoinKeepsInvariants(st, m, c);
            Done(201, (m, st'))
  }

  /** Adding a membership to an existing community keeps every creator a
      member and every membership pointing at a community. */
  lemma JoinKeepsInvariants(st: Store, m: Membership, c: Community)
    requires c in st.communities && m.comunidadeId == c.id
    ensures CreatorsAreMembers(st) ==> CreatorsAreMembers(st.(members := st.members + [m]))
    ensures MembersReferenceCommunities(st) ==> MembersReferenceCommunities(st.(members := st.members + [m]))
  {
    var st' := st.(members := st.members + [m]);
    if CreatorsAreMembers(st) {
      forall x | x in st'.communities
        ensures IsMember(st', x.criadorId, x.id)
      {
        var w :| w in st.members && w.usuarioId == x.criadorId && w.comunidadeId == x.id;
        assert w in st'.members;
      }
    }
  }

  // Own communities: GET /api/comunidades/minhas

  /** GET /api/comunidades/minhas: an ADMIN gets every community, anyone
      else the communities they belong to; newest id first. */
  function MyCommunities(st: Store, a: Auth): (r: Outcome<seq<Community>>)
    ensures r.Fail? <==> !a.Valid?
    ensures r.Fail? ==> r.code == 401
    ensures r.Done? ==> r.code == 200 && SortedDescBy(r.value, (c: Community) => c.id)
    ensures r.Done? ==> forall c :: c in r.value <==>
      c in st.communities && (a.payload.tipo == Admin || IsMember(st, a.payload.usuarioId, c.id))
    ensures r.Done? && a.payload.tipo == Admin ==> |r.value| == |st.communities|
  {
    if !a.Valid? then AuthFailure(a)
    else if a.payload.tipo == Admin then
      var sorted := SortDescBy(st.communities, (c: Community) => c.id);
      SortedElements(st.communities, sorted);
      Done(200, sorted)
    else
      var uid := a.payload.usuarioId;
      var mine := Filter(st.communities, (c: Community) => IsMember(st, uid, c.id));
      var sorted := SortDescBy(mine, (c: Community) => c.id);
      SortedElements(mine, sorted);
      Done(200, sorted)
  }

  /** While every creator is a member, a caller's own list holds every
      community they created. */
  lemma CreatorSeesOwn(st: Store, a: Auth, c: Community)
    requires CreatorsAreMembers(st)
    requires a.Valid? && c in st.communities && c.criadorId == a.payload.usuarioId
    ensures MyCommunities(st, a).Done? && c in MyCommunities(st, a).value
  {
  }

  /** Joining puts the community into the caller's own list. */
  lemma JoinThenListed(st: Store, a: Auth, b: JoinBody)
    requires JoinByCode(st, a, b).Done?
    ensures var st' := JoinByCode(st, a, b).value.1;
      FindByCode(st, b.codigo.value).value in MyCommunities(st', a).value
  {
    var st' := JoinByCode(st, a, b).value.1;
    var c := FindByCode(st, b.codigo.value).value;
    assert Membership(a.payload.usuarioId, c.id) in st'.members;
  }
}
