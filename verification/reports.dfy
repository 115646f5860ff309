/** The vote report: every session (or the one asked for), newest start
    first, each with its projects and each project with its votes, newest
    first, the voter's name or `Anônimo`, the inline CPF mask, and the
    totals. */
module Reports {

  import opened Wrappers
  import opened Seqs
  import opened Sorting
  import opened Domain
  import Cpf

  /** One vote as reported. */
  datatype VoteLine = VoteLine(id: int, nomeParticipante: string, cpfMascarado: string,
                               dataVoto: int, comentario: Option<string>)

  /** One project as reported. */
  datatype ProjectReport = ProjectReport(id: int, titulo: string, descricao: Option<string>,
                                         votos: seq<VoteLine>, totalVotos: nat)

  /** One session as reported. */
  datatype SessionReport = SessionReport(id: int, titulo: string, dataInicio: int, dataFim: int,
                                         ativa: bool, projetos: seq<ProjectReport>,
                                         totalProjetos: nat, totalVotos: int)

  const Anonymous := "Anônimo"

  /** `voto.usuario?.nome || 'Anônimo'`. */
  function VoterName(u: Option<User>): (r: string)
    ensures u.Some? && Nullable(u.value.nome).Some? ==> r == u.value.nome.value
    ensures u.None? || Nullable(u.value.nome).None? ==> r == Anonymous
  {
    if u.Some? && u.value.nome.Some? && u.value.nome.value != "" then u.value.nome.value else Anonymous
  }

  /** One vote with its voter's name and masked CPF. */
  function Line(st: Store, v: Vote): (l: VoteLine)
    ensures l.id == v.id && l.dataVoto == v.dataVoto && l.comentario == v.comentario
    ensures l.nomeParticipante == VoterName(FindUser(st, v.usuarioId))
    ensures FindUser(st, v.usuarioId).None? ==> l.cpfMascarado == "-"
    ensures FindUser(st, v.usuarioId).Some? ==> l.cpfMascarado == Cpf.ReportMask(FindUser(st, v.usuarioId).value.cpf)
  {
    var u := FindUser(st, v.usuarioId);
    VoteLine(v.id, VoterName(u), if u.Some? then Cpf.ReportMask(u.value.cpf) else "-", v.dataVoto, v.comentario)
  }

  function DataVoto(v: Vote): int
  {
    v.dataVoto
  }

  function LineDate(l: VoteLine): int
  {
    l.dataVoto
  }

  /** The votes of one project, newest first. */
  function ProjectLine(st: Store, p: Project): (r: ProjectReport)
    ensures r.id == p.id && r.titulo == p.titulo && r.descricao == Nullable(p.descricaoDetalhada)
    ensures r.totalVotos == |r.votos| == Count(st.votes, (v: Vote) => v.projetoId == p.id)
    ensures SortedDescBy(r.votos, LineDate)
    ensures forall l :: l in r.votos <==> exists v :: v in st.votes && v.projetoId == p.id && l == Line(st, v)
  {
    var mine := Filter(st.votes, (v: Vote) => v.projetoId == p.id);
    var lines := Map(SortDescBy(mine, DataVoto), (v: Vote) => Line(st, v));
    SortedImage(mine, DataVoto, (v: Vote) => Line(st, v), LineDate);
    ProjectReport(p.id, p.titulo, Nullable(p.descricaoDetalhada), lines, |lines|)
  }

  function ProjectTotal(r: ProjectReport): int
  {
    r.totalVotos
  }

  /** The projects of a session. The query asks for no order; the model
      keeps the order of the store. */
  function ProjectsOf(st: Store, s: Session): (r: seq<Project>)
    ensures forall p :: p in r <==> p in st.projects && p.sessaoId == s.id
  {
    Filter(st.projects, (p: Project) => p.sessaoId == s.id)
  }

  /** One session with its projects and totals. */
  function SessionLine(st: Store, s: Session): (r: SessionReport)
    ensures r.id == s.id && r.titulo == s.titulo && r.dataInicio == s.dataInicio
    ensures r.dataFim == s.dataFim && r.ativa == s.ativa
    ensures r.totalProjetos == |r.projetos| == |ProjectsOf(st, s)|
    ensures forall i :: 0 <= i < |r.projetos| ==> r.projetos[i] == ProjectLine(st, ProjectsOf(st, s)[i])
    ensures r.totalVotos == Sum(r.projetos, ProjectTotal)
  {
    var ps := Map(ProjectsOf(st, s), (p: Project) => ProjectLine(st, p));
    SessionReport(s.id, s.titulo, s.dataInicio, s.dataFim, s.ativa, ps, |ps|, Sum(ps, ProjectTotal))
  }

  function DataInicio(s: Session): int
  {
    s.dataInicio
  }

  function ReportStart(r: SessionReport): int
  {
    r.dataInicio
  }

  /** The `sessao_id` filter; `q` is the parsed parameter, `None` when it
      is absent or empty. */
  predicate Asked(s: Session, q: Option<int>)
  {
    q.None? || s.id == q.value
  }

  /** GET /api/relatorios/votos: any verified caller, whatever the role. */
  function Report(st: Store, a: Auth, q: Option<int>): (r: Outcome<seq<SessionReport>>)
    ensures r.Fail? <==> !a.Valid?
    ensures r.Fail? ==> r.code == 401
    ensures r.Done? ==> r.code == 200 && SortedDescBy(r.value, ReportStart)
    ensures r.Done? ==> |r.value| == Count(st.sessions, (s: Session) => Asked(s, q))
    ensures r.Done? ==> forall l :: l in r.value <==>
      exists s :: s in st.sessions && Asked(s, q) && l == SessionLine(st, s)
  {
    if !a.Valid? then AuthFailure(a) else Done(200, Lines(st, q))
  }

  /** The report of every asked session, latest start first. */
  function Lines(st: Store, q: Option<int>): (r: seq<SessionReport>)
    ensures SortedDescBy(r, ReportStart)
    ensures |r| == Count(st.sessions, (s: Session) => Asked(s, q))
    ensures forall l :: l in r <==> exists s :: s in st.sessions && Asked(s, q) && l == SessionLine(st, s)
  {
    var asked := Filter(st.sessions, (s: Session) => Asked(s, q));
    var f := (s: Session) => SessionLine(st, s);
    var lines := Map(SortDescBy(asked, DataInicio), f);
    assert forall s :: ReportStart(f(s)) == DataInicio(s);
    SortedImage(asked, DataInicio, f, ReportStart);
    lines
  }

  /** The report does not look at the caller's role. */
  lemma ReportIgnoresRole(st: Store, p1: Payload, p2: Payload, q: Option<int>)
    ensures Report(st, Valid(p1), q) == Report(st, Valid(p2), q)
  {
  }

  /** With distinct session ids, asking for one id gives at most one
      session. */
  lemma AskedOne(st: Store, a: Auth, id: int)
    requires a.Valid?
    requires forall i, j :: 0 <= i < j < |st.sessions| ==> st.sessions[i].id != st.sessions[j].id
    ensures |Report(st, a, Some(id)).value| <= 1
  {
    AtMostOneWithId(st.sessions, id);
  }

  lemma {:induction false} AtMostOneWithId(ss: seq<Session>, id: int)
    requires forall i, j :: 0 <= i < j < |ss| ==> ss[i].id != ss[j].id
    ensures Count(ss, (s: Session) => Asked(s, Some(id))) <= 1
    decreases |ss|
  {
    if |ss| > 0 {
      AtMostOneWithId(ss[1..], id);
      if ss[0].id == id {
        NoneWithId(ss[1..], id);
      }
    }
  }

  lemma {:induction false} NoneWithId(ss: seq<Session>, id: int)
    requires forall i :: 0 <= i < |ss| ==> ss[i].id != id
    ensures Count(ss, (s: Session) => Asked(s, Some(id))) == 0
    decreases |ss|
  {
    if |ss| > 0 {
      NoneWithId(ss[1..], id);
    }
  }

  /** The ids of some projects. */
  function Ids(ps: seq<Project>): set<int>
  {
    set p | p in ps :: p.id
  }

  /** A session's total is the number of votes cast for its projects, when
      project ids are distinct. */
  lemma SessionTotalCountsVotes(st: Store, s: Session)
    requires forall i, j :: 0 <= i < j < |st.projects| ==> st.projects[i].id != st.projects[j].id
    ensures SessionLine(st, s).totalVotos ==
      Count(st.votes, (v: Vote) => v.projetoId in Ids(ProjectsOf(st, s)))
  {
    var ps := ProjectsOf(st, s);
    FilterIsSubsequence(st.projects, (p: Project) => p.sessaoId == s.id);
    DistinctIdsOfSubsequence(ps, st.projects);
    TotalOfLines(st, ps);
  }

  /** A subsequence of a sequence with distinct ids has distinct ids. */
  lemma {:induction false} DistinctIdsOfSubsequence(r: seq<Project>, s: seq<Project>)
    requires IsSubsequence(r, s)
    requires forall i, j :: 0 <= i < j < |s| ==> s[i].id != s[j].id
    ensures forall i, j :: 0 <= i < j < |r| ==> r[i].id != r[j].id
    decreases |s|
  {
    if |r| > 0 && |s| > 0 {
      DistinctIdsOfSubsequence(if r[0] == s[0] && IsSubsequence(r[1..], s[1..]) then r[1..] else r, s[1..]);
      if r[0] == s[0] && IsSubsequence(r[1..], s[1..]) {
        SubsequenceElements(r[1..], s[1..]);
        forall j | 1 <= j < |r|
          ensures r[0].id != r[j].id
        {
          assert r[j] == r[1..][j - 1];
          assert r[j] in r[1..];
          assert r[j] in s[1..];
          var k :| 0 <= k < |s[1..]| && s[1..][k] == r[j];
          assert s[k + 1] == r[j];
        }
      }
    }
  }

  lemma {:induction false} SubsequenceElements<T>(r: seq<T>, s: seq<T>)
    requires IsSubsequence(r, s)
    ensures forall x :: x in r ==> x in s
    decreases |s|
  {
    if |r| > 0 && |s| > 0 {
      if r[0] == s[0] && IsSubsequence(r[1..], s[1..]) {
        SubsequenceElements(r[1..], s[1..]);
        assert r == [r[0]] + r[1..];
      } else {
        SubsequenceElements(r, s[1..]);
      }
    }
  }

  /** Summing the per-project totals counts the votes of all the
      projects. */
  lemma {:induction false} TotalOfLines(st: Store, ps: seq<Project>)
    requires forall i, j :: 0 <= i < j < |ps| ==> ps[i].id != ps[j].id
    ensures Sum(Map(ps, (p: Project) => ProjectLine(st, p)), ProjectTotal) ==
      Count(st.votes, (v: Vote) => v.projetoId in Ids(ps))
    decreases |ps|
  {
    if |ps| == 0 {
      NoneCounted(st.votes, (v: Vote) => v.projetoId in Ids(ps));
    } else {
      var rest := ps[1..];
      SumOfLinesCons(st, ps);
      TotalOfLines(st, rest);
      IdsCons(ps);
      CountDisjoint(st.votes, (v: Vote) => v.projetoId == ps[0].id,
                    (v: Vote) => v.projetoId in Ids(rest),
                    (v: Vote) => v.projetoId in Ids(ps));
    }
  }

  lemma SumOfLinesCons(st: Store, ps: seq<Project>)
    requires |ps| > 0
    ensures Sum(Map(ps, (p: Project) => ProjectLine(st, p)), ProjectTotal) ==
      ProjectLine(st, ps[0]).totalVotos + Sum(Map(ps[1..], (p: Project) => ProjectLine(st, p)), ProjectTotal)
  {
    var f := (p: Project) => ProjectLine(st, p);
    assert ps == [ps[0]] + ps[1..];
    MapCons(ps[0], ps[1..], f);
    var m := Map(ps, f);
    assert m[1..] == Map(ps[1..], f);
  }

  /** The ids of a sequence with distinct ids: the head's and, apart from
      it, those of the tail. */
  lemma IdsCons(ps: seq<Project>)
    requires |ps| > 0
    requires forall i, j :: 0 <= i < j < |ps| ==> ps[i].id != ps[j].id
    ensures Ids(ps) == {ps[0].id} + Ids(ps[1..])
    ensures ps[0].id !in Ids(ps[1..])
  {
    var rest := ps[1..];
    assert ps == [ps[0]] + rest;
    forall p | p in rest
      ensures p.id != ps[0].id
    {
      var j :| 0 <= j < |rest| && rest[j] == p;
      assert ps[j + 1] == p;
    }
  }
}
