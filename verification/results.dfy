/** The results route: per-project vote counts of one session, their total,
    the descending order and the percentages, behind the has-voted gate. */
module Results {

  import opened Wrappers
  import opened Seqs
  import opened Sorting
  import opened Domain
  import Votes

  /** One row of `groupBy(['projeto_id'])` with its `_count.id`. */
  datatype Tally = Tally(projetoId: int, votos: nat)

  function TallyVotes(t: Tally): int
  {
    t.votos
  }

  function SessionVotes(st: Store, sessaoId: int): seq<Vote>
  {
    Filter(st.votes, (v: Vote) => v.sessaoId == sessaoId)
  }

  /** The number of votes in `vs` for project `pid`. */
  function CountFor(vs: seq<Vote>, pid: int): nat
  {
    Count(vs, (v: Vote) => v.projetoId == pid)
  }

  /** The votes the tallies hold for project `q` (0 when it has no row). */
  function VotesOf(ts: seq<Tally>, q: int): nat
  {
    if |ts| == 0 then 0 else (if ts[0].projetoId == q then ts[0].votos else 0) + VotesOf(ts[1..], q)
  }

  predicate DistinctProjects(ts: seq<Tally>)
  {
    forall i, j :: 0 <= i < j < |ts| ==> ts[i].projetoId != ts[j].projetoId
  }

  predicate AllPositive(ts: seq<Tally>)
  {
    forall i :: 0 <= i < |ts| ==> ts[i].votos >= 1
  }

  /** Counts one more vote for `pid`: bumps its row, or adds a row of 1. */
  function Bump(ts: seq<Tally>, pid: int): (r: seq<Tally>)
    ensures forall q :: VotesOf(r, q) == VotesOf(ts, q) + (if q == pid then 1 else 0)
    ensures Sum(r, TallyVotes) == Sum(ts, TallyVotes) + 1
    ensures DistinctProjects(ts) ==> DistinctProjects(r)
    ensures AllPositive(ts) ==> AllPositive(r)
    ensures forall i :: 0 <= i < |r| ==> r[i].projetoId == pid || exists j :: 0 <= j < |ts| && ts[j].projetoId == r[i].projetoId
    decreases |ts|
  {
    if |ts| == 0 then [Tally(pid, 1)]
    else if ts[0].projetoId == pid then
      var r := [ts[0].(votos := ts[0].votos + 1)] + ts[1..];
      assert r[1..] == ts[1..];
      r
    else
      var rest := Bump(ts[1..], pid);
      var r := [ts[0]] + rest;
      assert r[1..] == rest;
      assert forall i :: 1 <= i < |r| ==> r[i] == rest[i - 1];
      assert forall j :: 0 <= j < |ts| - 1 ==> ts[1..][j] == ts[j + 1];
      assert DistinctProjects(ts) ==> DistinctProjects(r) by {
        if DistinctProjects(ts) {
          forall i | 0 <= i < |rest|
            ensures rest[i].projetoId != ts[0].projetoId
          {
            if rest[i].projetoId != pid {
              var j :| 0 <= j < |ts[1..]| && ts[1..][j].projetoId == rest[i].projetoId;
              assert ts[j + 1] == ts[1..][j];
            }
          }
          ConsDistinct(ts[0], rest);
        }
      }
      r
  }

  /** A row whose project no other row has keeps the rows distinct. */
  lemma ConsDistinct(t: Tally, rest: seq<Tally>)
    requires DistinctProjects(rest)
    requires forall i :: 0 <= i < |rest| ==> rest[i].projetoId != t.projetoId
    ensures DistinctProjects([t] + rest)
  {
    var r := [t] + rest;
    forall i, j | 0 <= i < j < |r|
      ensures r[i].projetoId != r[j].projetoId
    {
      assert r[j] == rest[j - 1];
      if i > 0 {
        assert r[i] == rest[i - 1];
      }
    }
  }

  /** `groupBy(['projeto_id'])` with `_count`: one row per voted project. */
  function Group(vs: seq<Vote>): (r: seq<Tally>)
    ensures forall q :: VotesOf(r, q) == CountFor(vs, q)
    ensures Sum(r, TallyVotes) == |vs|
    ensures DistinctProjects(r)
    ensures AllPositive(r)
    decreases |vs|
  {
    if |vs| == 0 then []
    else
      var rest := Group(vs[1..]);
      var r := Bump(rest, vs[0].projetoId);
      assert forall q :: CountFor(vs, q) == CountFor(vs[1..], q) + (if vs[0].projetoId == q then 1 else 0);
      r
  }

  lemma {:induction false} VotesOfEntry(ts: seq<Tally>, i: int)
    requires DistinctProjects(ts)
    requires 0 <= i < |ts|
    ensures VotesOf(ts, ts[i].projetoId) == ts[i].votos
    decreases |ts|
  {
    if i == 0 {
      VotesOfAbsent(ts[1..], ts[0].projetoId);
    } else {
      VotesOfEntry(ts[1..], i - 1);
    }
  }

  lemma {:induction false} VotesOfAbsent(ts: seq<Tally>, q: int)
    requires forall j :: 0 <= j < |ts| ==> ts[j].projetoId != q
    ensures VotesOf(ts, q) == 0
    decreases |ts|
  {
    if |ts| > 0 {
      VotesOfAbsent(ts[1..], q);
    }
  }

  lemma {:induction false} VotesOfPresent(ts: seq<Tally>, q: int)
    requires VotesOf(ts, q) > 0
    ensures exists i :: 0 <= i < |ts| && ts[i].projetoId == q
    decreases |ts|
  {
    if ts[0].projetoId != q {
      VotesOfPresent(ts[1..], q);
      var i :| 0 <= i < |ts[1..]| && ts[1..][i].projetoId == q;
      assert ts[i + 1].projetoId == q;
    }
  }

  /** One entry of the response. */
  datatype Entry = Entry(projetoId: int, titulo: string, descricao: Option<string>,
                         autor: Option<string>, votos: nat, percentual: nat)

  datatype Report = Report(sessaoId: int, totalVotos: nat, resultados: seq<Entry>, usuarioJaVotou: bool)

  const Fallback := "Projeto não encontrado"

  /** `parseFloat(((count / total) * 100).toFixed(1))` in tenths of a
      percent: the share rounded half up to one decimal, 0 when the total
      is 0. */
  function Tenths(count: nat, total: nat): (p: nat)
    ensures total == 0 ==> p == 0
    ensures total > 0 ==> 2 * total * p <= 2000 * count + total < 2 * total * (p + 1)
  {
    if total > 0 then
      var n := 2000 * count + total;
      var d := 2 * total;
      var q := n / d;
      assert n == d * q + n % d;
      q
    else 0
  }

  /** A count within the total gets a share between 0.0 and 100.0. */
  lemma TenthsBounds(count: nat, total: nat)
    requires count <= total
    ensures Tenths(count, total) <= 1000
  {
    if total > 0 {
      var p := Tenths(count, total);
      if p > 1000 {
        MulMonotone(2 * total, 1001, p);
        assert false;
      }
    }
  }

  lemma MulMonotone(a: nat, b: nat, c: nat)
    requires b <= c
    ensures a * b <= a * c
  {
  }

  /** `projeto?.titulo || 'Projeto não encontrado'`: an entry's title is
      never blank; it is the project's own title when that is not empty. */
  function TitleOf(p: Option<Project>): (t: string)
    ensures t != ""
    ensures t == Fallback || (p.Some? && t == p.value.titulo)
    ensures p.Some? && p.value.titulo != "" ==> t == p.value.titulo
  {
    if p.Some? && p.value.titulo != "" then p.value.titulo else Fallback
  }

  function InSession(sid: int): Project -> bool
  {
    (p: Project) => p.sessaoId == sid
  }

  function HasId(pid: int): Project -> bool
  {
    (p: Project) => p.id == pid
  }

  /** `projetos.find(p => p.id === projeto_id)` over the session's
      projects. */
  function SessionProject(st: Store, sid: int, pid: int): (p: Option<Project>)
    ensures p.None? <==> forall x :: x in st.projects && x.sessaoId == sid ==> x.id != pid
    ensures p.Some? ==> p.value in st.projects && p.value.sessaoId == sid && p.value.id == pid
  {
    Find(Filter(st.projects, InSession(sid)), HasId(pid))
  }

  function ToEntry(t: Tally, projs: seq<Project>, total: nat): Entry
  {
    var p := Find(projs, HasId(t.projetoId));
    Entry(t.projetoId, TitleOf(p),
          if p.Some? then p.value.descricaoDetalhada else None,
          if p.Some? then p.value.autorResponsavel else None,
          t.votos, Tenths(t.votos, total))
  }

  /** Each entry names its project from the session's stored projects:
      its title (or the fallback), its description and its author, which
      are missing when the project has no row in the session. */
  predicate Described(st: Store, sid: int, es: seq<Entry>)
  {
    forall i :: 0 <= i < |es| ==>
      var p := SessionProject(st, sid, es[i].projetoId);
      && es[i].titulo == TitleOf(p)
      && es[i].descricao == (if p.Some? then p.value.descricaoDetalhada else None)
      && es[i].autor == (if p.Some? then p.value.autorResponsavel else None)
  }

  function EntryVotes(e: Entry): int
  {
    e.votos
  }

  const MissingSession := "ID da sessão é obrigatório"
  const NotVotedYet := "Você ainda não votou nesta sessão"

  /** What the response promises about the votes `vs` of the session:
      one entry per voted project carrying its count, the total, the
      non-increasing order and the exact percentages. */
  predicate Tallied(vs: seq<Vote>, total: nat, es: seq<Entry>)
  {
    && total == |vs|
    && total == Sum(es, EntryVotes)
    && (forall i :: 0 <= i < |es| ==> es[i].votos == CountFor(vs, es[i].projetoId) >= 1)
    && (forall v :: v in vs ==> exists i :: 0 <= i < |es| && es[i].projetoId == v.projetoId)
    && (forall i, j :: 0 <= i < j < |es| ==> es[i].projetoId != es[j].projetoId)
    && (forall i, j :: 0 <= i < j < |es| ==> es[i].votos >= es[j].votos)
    && (forall i :: 0 <= i < |es| ==>
          es[i].percentual == Tenths(es[i].votos, total) <= 1000)
  }

  /** GET /api/votos/resultados?sessao_id=; `sessaoQ` is `None` when the
      parameter is absent or empty. */
  function GetResults(st: Store, a: Auth, sessaoQ: Option<int>): (r: Outcome<Report>)
    ensures !a.Valid? ==> r.Fail? && r.code == 401
    ensures a.Valid? && sessaoQ.None? ==> r == Fail(400, MissingSession)
    ensures a.Valid? && sessaoQ.Some? ==>
      (r == Fail(403, NotVotedYet) <==> !Votes.HasVoted(st, a.payload.usuarioId, sessaoQ.value))
    ensures r.Done? <==> a.Valid? && sessaoQ.Some? && Votes.HasVoted(st, a.payload.usuarioId, sessaoQ.value)
    ensures r.Done? ==>
      && r.code == 200
      && r.value.sessaoId == sessaoQ.value
      && r.value.usuarioJaVotou
      && r.value.totalVotos >= 1
      && Tallied(SessionVotes(st, sessaoQ.value), r.value.totalVotos, r.value.resultados)
      && Described(st, sessaoQ.value, r.value.resultados)
  {
    if !a.Valid? then AuthFailure(a)
    else if sessaoQ.None? then Fail(400, MissingSession)
    else
      var sid := sessaoQ.value;
      if !Votes.HasVoted(st, a.payload.usuarioId, sid) then
        Fail(403, NotVotedYet)
      else
        SessionVotesNonEmpty(st, a.payload.usuarioId, sid);
        Done(200, SessionResults(st, sid))
  }

  /** The results of a session with at least one vote. */
  function SessionResults(st: Store, sid: int): (rep: Report)
    requires |SessionVotes(st, sid)| >= 1
    ensures rep.sessaoId == sid && rep.usuarioJaVotou && rep.totalVotos >= 1
    ensures Tallied(SessionVotes(st, sid), rep.totalVotos, rep.resultados)
    ensures Described(st, sid, rep.resultados)
  {
    var vs := SessionVotes(st, sid);
    var grouped := Group(vs);
    var ts := SortDescBy(grouped, TallyVotes);
    SumPermutation(grouped, ts, TallyVotes);
    var total: nat := Sum(ts, TallyVotes);
    var es := Entries(st, sid, ts, total);
    ResultsFacts(vs, grouped, ts, es, total);
    Report(sid, total, es, true)
  }

  /** One entry per tally, in the tallies' order, named from the session's
      stored projects. */
  function Entries(st: Store, sid: int, ts: seq<Tally>, total: nat): (es: seq<Entry>)
    ensures |es| == |ts|
    ensures forall i :: 0 <= i < |ts| ==> es[i].projetoId == ts[i].projetoId && es[i].votos == ts[i].votos
                                          && es[i].percentual == Tenths(ts[i].votos, total)
    ensures Described(st, sid, es)
  {
    var projs := Filter(st.projects, InSession(sid));
    seq(|ts|, i requires 0 <= i < |ts| => ToEntry(ts[i], projs, total))
  }

  /** A voted project with no row among the session's projects is listed
      as "Projeto não encontrado", with no description or author; one with
      a row and a non-empty title is listed under that title. */
  lemma MissingProjectNamed(st: Store, a: Auth, sid: int, i: int)
    requires GetResults(st, a, Some(sid)).Done?
    requires 0 <= i < |GetResults(st, a, Some(sid)).value.resultados|
    ensures var e := GetResults(st, a, Some(sid)).value.resultados[i];
      && ((forall x :: x in st.projects && x.sessaoId == sid ==> x.id != e.projetoId) ==>
            e.titulo == Fallback && e.descricao.None? && e.autor.None?)
      && (forall x :: x in st.projects && x.sessaoId == sid && x.id == e.projetoId && x.titulo != ""
            && (forall y :: y in st.projects && y.sessaoId == sid && y.id == e.projetoId ==> y == x)
            ==> e.titulo == x.titulo)
  {
    var es := GetResults(st, a, Some(sid)).value.resultados;
    assert Described(st, sid, es);
  }

  lemma SessionVotesNonEmpty(st: Store, usuarioId: int, sessaoId: int)
    requires Votes.HasVoted(st, usuarioId, sessaoId)
    ensures |SessionVotes(st, sessaoId)| >= 1
  {
    var v :| v in st.votes && v.usuarioId == usuarioId && v.sessaoId == sessaoId;
    assert v in SessionVotes(st, sessaoId);
  }

  /** What the grouped, sorted and mapped rows satisfy. */
  lemma ResultsFacts(vs: seq<Vote>, grouped: seq<Tally>, ts: seq<Tally>, es: seq<Entry>, total: nat)
    requires grouped == Group(vs)
    requires multiset(ts) == multiset(grouped) && SortedDescBy(ts, TallyVotes)
    requires total == Sum(ts, TallyVotes)
    requires |es| == |ts|
    requires forall i :: 0 <= i < |ts| ==> es[i].projetoId == ts[i].projetoId && es[i].votos == ts[i].votos
                                           && es[i].percentual == Tenths(ts[i].votos, total)
    ensures Tallied(vs, total, es)
  {
    SumPermutation(grouped, ts, TallyVotes);
    SumOfEntries(ts, es);
    SortedElements(grouped, ts);
    GroupedEntries(vs, grouped);
    EntriesCounted(vs, ts, es);
    EntriesCover(vs, grouped, ts, es);
    EntriesDistinct(grouped, ts, es);
    EntriesTenths(es, total);
  }

  lemma EntriesCounted(vs: seq<Vote>, ts: seq<Tally>, es: seq<Entry>)
    requires forall t :: t in ts ==> t.votos == CountFor(vs, t.projetoId) >= 1
    requires |es| == |ts|
    requires forall i :: 0 <= i < |ts| ==> es[i].projetoId == ts[i].projetoId && es[i].votos == ts[i].votos
    ensures forall i :: 0 <= i < |es| ==> es[i].votos == CountFor(vs, es[i].projetoId) >= 1
  {
    forall i | 0 <= i < |es|
      ensures es[i].votos == CountFor(vs, es[i].projetoId) >= 1
    {
      assert ts[i] in ts;
    }
  }

  lemma EntriesCover(vs: seq<Vote>, grouped: seq<Tally>, ts: seq<Tally>, es: seq<Entry>)
    requires grouped == Group(vs)
    requires forall t :: t in ts <==> t in grouped
    requires |es| == |ts|
    requires forall i :: 0 <= i < |ts| ==> es[i].projetoId == ts[i].projetoId
    ensures forall v :: v in vs ==> exists i :: 0 <= i < |es| && es[i].projetoId == v.projetoId
  {
    forall v | v in vs
      ensures exists i :: 0 <= i < |es| && es[i].projetoId == v.projetoId
    {
      CountPositive(vs, v);
      VotesOfPresent(grouped, v.projetoId);
      var k :| 0 <= k < |grouped| && grouped[k].projetoId == v.projetoId;
      assert grouped[k] in ts;
      var i :| 0 <= i < |ts| && ts[i] == grouped[k];
      assert es[i].projetoId == v.projetoId;
    }
  }

  lemma EntriesDistinct(grouped: seq<Tally>, ts: seq<Tally>, es: seq<Entry>)
    requires DistinctProjects(grouped)
    requires multiset(ts) == multiset(grouped)
    requires |es| == |ts|
    requires forall i :: 0 <= i < |ts| ==> es[i].projetoId == ts[i].projetoId
    ensures forall i, j :: 0 <= i < j < |es| ==> es[i].projetoId != es[j].projetoId
  {
    NoDuplicatesOfDistinct(grouped);
    NoDuplicatesPermutation(grouped, ts);
    SortedElements(grouped, ts);
    forall t | t in grouped
      ensures t.votos == VotesOf(grouped, t.projetoId)
    {
      var k :| 0 <= k < |grouped| && grouped[k] == t;
      VotesOfEntry(grouped, k);
    }
    forall i, j | 0 <= i < j < |es|
      ensures es[i].projetoId != es[j].projetoId
    {
      assert ts[i] != ts[j];
      assert ts[i] in grouped && ts[j] in grouped;
    }
  }

  lemma EntriesTenths(es: seq<Entry>, total: nat)
    requires forall i :: 0 <= i < |es| ==> es[i].percentual == Tenths(es[i].votos, total)
    requires total == Sum(es, EntryVotes)
    ensures forall i :: 0 <= i < |es| ==> es[i].percentual == Tenths(es[i].votos, total) <= 1000
  {
    forall i | 0 <= i < |es|
      ensures Tenths(es[i].votos, total) <= 1000
    {
      SumElementBound(es, EntryVotes, i);
      TenthsBounds(es[i].votos, total);
    }
  }

  /** Every row of the grouping carries the count of its project. */
  lemma GroupedEntries(vs: seq<Vote>, grouped: seq<Tally>)
    requires grouped == Group(vs)
    ensures forall t :: t in grouped ==> t.votos == CountFor(vs, t.projetoId) >= 1
  {
    forall t | t in grouped
      ensures t.votos == CountFor(vs, t.projetoId) >= 1
    {
      var k :| 0 <= k < |grouped| && grouped[k] == t;
      VotesOfEntry(grouped, k);
    }
  }

  lemma {:induction false} SumOfEntries(ts: seq<Tally>, es: seq<Entry>)
    requires |es| == |ts|
    requires forall i :: 0 <= i < |ts| ==> es[i].votos == ts[i].votos
    ensures Sum(ts, TallyVotes) == Sum(es, EntryVotes)
    decreases |ts|
  {
    if |ts| > 0 {
      SumOfEntries(ts[1..], es[1..]);
    }
  }

  lemma CountPositive(vs: seq<Vote>, v: Vote)
    requires v in vs
    ensures CountFor(vs, v.projetoId) >= 1
  {
    assert v in Filter(vs, (x: Vote) => x.projetoId == v.projetoId);
  }

  lemma NoDuplicatesOfDistinct(ts: seq<Tally>)
    requires DistinctProjects(ts)
    ensures NoDuplicates(ts)
  {
  }
}
