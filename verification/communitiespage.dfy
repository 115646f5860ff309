/** The communities page: who sees the create and join buttons, which list
    it shows, the create form with the body it posts, the join code it
    sends, and the totals above the list. */
module CommunitiesPage {

  import opened Wrappers
  import opened Seqs
  import opened Sorting
  import opened Text
  import opened Domain
  import opened InviteCodes
  import Communities

  /** `podeCriar`: a GESTOR that is not an ADMIN. */
  predicate MayCreate(me: Option<Payload>)
  {
    me.Some? && me.value.tipo == Gestor
  }

  /** The route turns the caller away as not a GESTOR exactly when the page
      hides the create button. */
  lemma CreateButtonAgrees(st: Store, p: Payload, b: Communities.CommunityBody, draws: seq<Draw>)
    ensures Communities.PostCommunity(st, Valid(p), b, draws) == Fail(403, Communities.OnlyGestores)
      <==> !MayCreate(Some(p))
  {
  }

  /** The "Ingressar" buttons: shown to everyone but an ADMIN. */
  predicate ShowsJoin(me: Option<Payload>)
  {
    !(me.Some? && me.value.tipo == Admin)
  }

  /** The page hides joining from an ADMIN, but the route has no role rule:
      an ADMIN who posts a valid code joins all the same. */
  lemma HiddenJoinStillAccepted(st: Store, p: Payload, b: Communities.JoinBody)
    requires p.tipo == Admin && Communities.CodeFound(st, Valid(p), b)
    requires !IsMember(st, p.usuarioId, Communities.FindByCode(st, b.codigo.value).value.id)
    ensures !ShowsJoin(Some(p))
    ensures Communities.JoinByCode(st, Valid(p), b).Done?
  {
  }

  /** The edit and delete buttons of a card: shown to an ADMIN only. */
  predicate ShowsManage(me: Option<Payload>)
  {
    me.Some? && me.value.tipo == Admin
  }

  /** The only callers who may create a community never see its edit and
      delete buttons, so a GESTOR cannot manage from this page the
      communities they created. */
  lemma CreatorNeverManages(st: Store, p: Payload, b: Communities.CommunityBody, draws: seq<Draw>)
    requires Communities.PostCommunity(st, Valid(p), b, draws).Done?
    ensures !ShowsManage(Some(p))
    ensures Communities.PostCommunity(st, Valid(p), b, draws).value.0.criadorId == p.usuarioId
  {
  }

  /** The list the page shows: the public listing for an ADMIN, the
      caller's own communities otherwise. */
  function Shown<T>(me: Option<Payload>, todas: seq<T>, minhas: seq<T>): seq<T>
  {
    if me.Some? && me.value.tipo == Admin then todas else minhas
  }

  /** For an ADMIN the two sources hold the same communities, so showing
      the public listing loses nothing the own-communities route gives. */
  lemma AdminListsAgree(st: Store, p: Payload, id: int)
    requires p.tipo == Admin
    ensures var todas := Communities.GetCommunities(st, Valid(p)).value;
      var minhas := Communities.MyCommunities(st, Valid(p)).value;
      (exists l :: l in todas && l.id == id) <==> (exists c :: c in minhas && c.id == id)
  {
    var todas := Communities.GetCommunities(st, Valid(p)).value;
    if exists c :: c in st.communities && c.id == id {
      var c :| c in st.communities && c.id == id;
      assert Communities.Listed(st, c, false) in todas;
    }
  }

  // Joining by code

  /** The code the page posts: what was typed, upper-cased. */
  function JoinCode(typed: string): (r: string)
    ensures |r| == |typed|
    ensures Communities.CodeValid(Communities.JoinBody(Some(r))) <==> |typed| >= 6
  {
    Upper(typed)
  }

  /** `ingressarSchema` on the page: the same bound as the route's. */
  function JoinIssues(typed: string): (r: seq<string>)
    ensures |r| == 0 <==> Communities.CodeValid(Communities.JoinBody(Some(JoinCode(typed))))
  {
    if |typed| < 6 then [Communities.CodeTooShort] else []
  }

  /** Typing a community's code in any mix of cases finds that community:
      the route's lookup is exact, but the page upper-cases first, and codes
      are upper-case. */
  lemma AnyCaseFinds(st: Store, c: Community, typed: string)
    requires UniqueCodes(st.communities) && c in st.communities
    requires Upper(typed) == c.codigo
    ensures Communities.FindByCode(st, JoinCode(typed)) == Some(c)
  {
    Communities.FindByCodeUnique(st, c);
  }

  /** In particular the lower-case spelling of a generated code finds its
      community. */
  lemma LowerSpellingFinds(st: Store, c: Community, d: Draw)
    requires UniqueCodes(st.communities) && c in st.communities
    requires c.codigo == GenerateCode(d)
    ensures Communities.FindByCode(st, JoinCode(HexLower(Bytes(d)))) == Some(c)
  {
    AnyCaseFinds(st, c, HexLower(Bytes(d)));
  }

  // The create form

  datatype CreateForm = CreateForm(nome: string, descricao: string)

  /** `criarSchema`, the same bounds as the route's. */
  function CreateIssues(f: CreateForm): (r: seq<string>)
    ensures |r| == 0 <==> 3 <= |f.nome| <= 100
  {
    (if |f.nome| < 3 then [Communities.NameTooShort] else [])
    + (if |f.nome| > 100 then [Communities.NameTooLong] else [])
  }

  /** The body `handleCriar` posts: an empty description is left out. */
  function CreateBody(f: CreateForm): Communities.CommunityBody
  {
    Communities.CommunityBody(Some(f.nome), if f.descricao == "" then None else Some(f.descricao))
  }

  /** The page and the route accept the same forms, with the same message
      for each; the stored description is absent for an empty one. */
  lemma CreateChecksAgree(f: CreateForm, st: Store, a: Auth, draws: seq<Draw>)
    ensures |CreateIssues(f)| == 0 <==> Communities.CommunityBodyIssue(CreateBody(f)).None?
    ensures |CreateIssues(f)| > 0 ==> CreateIssues(f) == [Communities.CommunityBodyIssue(CreateBody(f)).value]
    ensures var r := Communities.PostCommunity(st, a, CreateBody(f), draws);
      r.Done? ==> r.value.0.descricao == Nullable(Some(f.descricao))
  {
  }

  // The totals above the list

  function CardMembers(l: Communities.Listing): int
  {
    l.membros
  }

  function CardSessions(l: Communities.Listing): int
  {
    l.sessoes
  }

  datatype Totals = Totals(comunidades: nat, sessoes: int, membros: int)

  /** The three totals: the number of cards and the sums of their session
      and member counts. */
  function PageTotals(cards: seq<Communities.Listing>): (t: Totals)
    ensures t.comunidades == |cards| && t.sessoes >= 0 && t.membros >= 0
  {
    SumNonNegative(cards, CardSessions);
    SumNonNegative(cards, CardMembers);
    Totals(|cards|, Sum(cards, CardSessions), Sum(cards, CardMembers))
  }

  /** The primary key of `comunidades`. */
  predicate UniqueIds(cs: seq<Community>)
  {
    forall i, j :: 0 <= i < j < |cs| ==> cs[i].id != cs[j].id
  }

  function CommunityIds(cs: seq<Community>): set<int>
  {
    set c | c in cs :: c.id
  }

  function MembersOf(st: Store): Community -> int
  {
    (c: Community) => Communities.MemberCount(st, c.id)
  }

  function Within(ids: set<int>): Membership -> bool
  {
    (m: Membership) => m.comunidadeId in ids
  }

  /** Over the whole listing the members total counts every membership
      exactly once. */
  lemma MembersTotal(st: Store, a: Auth)
    requires UniqueIds(st.communities) && MembersReferenceCommunities(st)
    ensures PageTotals(Communities.GetCommunities(st, a).value).membros == |st.members|
  {
    var w := !Communities.IsAdminCaller(a);
    var sorted := SortDescBy(st.communities, (c: Community) => c.id);
    var f := (c: Community) => Communities.Listed(st, c, w);
    assert Communities.GetCommunities(st, a).value == Map(sorted, f);
    ListedMembers(st, sorted, w);
    SumPermutation(sorted, st.communities, MembersOf(st));
    MembersOfCommunities(st, st.communities);
    forall i | 0 <= i < |st.members|
      ensures Within(CommunityIds(st.communities))(st.members[i])
    {
      assert st.members[i] in st.members;
    }
    CountAll(st.members, Within(CommunityIds(st.communities)));
  }

  /** A card's member count is its community's. */
  lemma {:induction false} ListedMembers(st: Store, cs: seq<Community>, w: bool)
    ensures Sum(Map(cs, (c: Community) => Communities.Listed(st, c, w)), CardMembers) == Sum(cs, MembersOf(st))
    decreases |cs|
  {
    if |cs| > 0 {
      var f := (c: Community) => Communities.Listed(st, c, w);
      ListedMembers(st, cs[1..], w);
      assert cs == [cs[0]] + cs[1..];
      MapCons(cs[0], cs[1..], f);
      assert Map(cs, f)[1..] == Map(cs[1..], f);
    }
  }

  /** The member counts of communities with distinct ids add up to the
      memberships pointing at one of them. */
  lemma {:induction false} MembersOfCommunities(st: Store, cs: seq<Community>)
    requires UniqueIds(cs)
    ensures Sum(cs, MembersOf(st)) == Count(st.members, Within(CommunityIds(cs)))
    decreases |cs|
  {
    if |cs| == 0 {
      NoneCounted(st.members, Within(CommunityIds(cs)));
    } else {
      var rest := cs[1..];
      MembersOfCommunities(st, rest);
      assert cs == [cs[0]] + rest;
      assert CommunityIds(cs) == {cs[0].id} + CommunityIds(rest);
      assert cs[0].id !in CommunityIds(rest);
      CountDisjoint(st.members, (m: Membership) => m.comunidadeId == cs[0].id,
                    Within(CommunityIds(rest)), Within(CommunityIds(cs)));
    }
  }
  function SessionsOf(st: Store): Community -> int
  {
    (c: Community) => Communities.SessionCount(st, c.id)
  }

  /** The session belongs to one of the communities `ids`. */
  function SessionWithin(ids: set<int>): Session -> bool
  {
    (s: Session) => s.comunidadeId.Some? && s.comunidadeId.value in ids
  }

  /** Over the whole listing the sessions total counts every session that
      names a listed community exactly once; sessions without a community
      are in no card. */
  lemma SessionsTotal(st: Store, a: Auth)
    requires UniqueIds(st.communities)
    ensures PageTotals(Communities.GetCommunities(st, a).value).sessoes
      == Count(st.sessions, SessionWithin(CommunityIds(st.communities)))
  {
    var w := !Communities.IsAdminCaller(a);
    var sorted := SortDescBy(st.communities, (c: Community) => c.id);
    var f := (c: Community) => Communities.Listed(st, c, w);
    assert Communities.GetCommunities(st, a).value == Map(sorted, f);
    ListedSessions(st, sorted, w);
    SumPermutation(sorted, st.communities, SessionsOf(st));
    SessionsOfCommunities(st, st.communities);
  }

  /** A card's session count is its community's. */
  lemma {:induction false} ListedSessions(st: Store, cs: seq<Community>, w: bool)
    ensures Sum(Map(cs, (c: Community) => Communities.Listed(st, c, w)), CardSessions) == Sum(cs, SessionsOf(st))
    decreases |cs|
  {
    if |cs| > 0 {
      var f := (c: Community) => Communities.Listed(st, c, w);
      ListedSessions(st, cs[1..], w);
      assert cs == [cs[0]] + cs[1..];
      MapCons(cs[0], cs[1..], f);
      assert Map(cs, f)[1..] == Map(cs[1..], f);
    }
  }

  /** The session counts of communities with distinct ids add up to the
      sessions pointing at one of them. */
  lemma {:induction false} SessionsOfCommunities(st: Store, cs: seq<Community>)
    requires UniqueIds(cs)
    ensures Sum(cs, SessionsOf(st)) == Count(st.sessions, SessionWithin(CommunityIds(cs)))
    decreases |cs|
  {
    if |cs| == 0 {
      NoneCounted(st.sessions, SessionWithin(CommunityIds(cs)));
    } else {
      var rest := cs[1..];
      SessionsOfCommunities(st, rest);
      assert cs == [cs[0]] + rest;
      assert CommunityIds(cs) == {cs[0].id} + CommunityIds(rest);
      assert cs[0].id !in CommunityIds(rest);
      CountDisjoint(st.sessions, (s: Session) => s.comunidadeId == Some(cs[0].id),
                    SessionWithin(CommunityIds(rest)), SessionWithin(CommunityIds(cs)));
    }
  }
}
