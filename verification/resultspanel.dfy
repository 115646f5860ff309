/** The partial-results panel: what it shows for an answer of the results
    route — the error, the empty state, or one bar per project with its
    leader mark, colour and plural suffix. */
module ResultsPanel {

  import opened Wrappers
  import opened Domain
  import Results

  /** `CORES_BARRA`. */
  const Colours: seq<string> := ["#10b981", "#3b82f6", "#f59e0b", "#ef4444", "#8b5cf6", "#ec4899", "#06b6d4", "#84cc16"]

  const DefaultError := "Erro ao buscar resultados"

  /** The suffix after "voto" and "registrado": none for exactly one. */
  function Plural(n: int): string
  {
    if n != 1 then "s" else ""
  }

  /** `Math.max(...votos)` over the entries; `None` for no entries. */
  function MaxVotes(es: seq<Results.Entry>): (m: Option<nat>)
    ensures m.None? <==> |es| == 0
    ensures m.Some? ==> forall i :: 0 <= i < |es| ==> es[i].votos <= m.value
    ensures m.Some? ==> exists i :: 0 <= i < |es| && es[i].votos == m.value
  {
    if |es| == 0 then None
    else
      match MaxVotes(es[1..])
      case None => Some(es[0].votos)
      case Some(rest) =>
        assert forall i :: 1 <= i < |es| ==> es[i] == es[1..][i - 1];
        if es[0].votos >= rest then Some(es[0].votos)
        else
          var k :| 0 <= k < |es[1..]| && es[1..][k].votos == rest;
          assert es[k + 1].votos == rest;
          Some(rest)
  }

  /** One bar of the panel. */
  datatype Bar = Bar(projetoId: int, titulo: string, votos: nat, suffix: string, percentual: nat,
                     leader: bool, colour: string)

  /** What the panel shows once the request has finished. */
  datatype View =
    | Note(message: string)
    | Nothing
    | Board(total: nat, suffix: string, bars: seq<Bar>)

  /** `isLider`: the entry has the most votes, and that maximum is positive. */
  predicate IsLeader(e: Results.Entry, max: Option<nat>)
  {
    max.Some? && e.votos == max.value && max.value > 0
  }

  function ToBar(e: Results.Entry, i: nat, max: Option<nat>): Bar
  {
    Bar(e.projetoId, e.titulo, e.votos, Plural(e.votos), e.percentual, IsLeader(e, max), Colours[i % |Colours|])
  }

  /** The panel for an answer of the results route. */
  function Show(r: Outcome<Results.Report>): (v: View)
    ensures r.Fail? ==> v == Note(if r.error == "" then DefaultError else r.error)
    ensures r.Done? && r.value.totalVotos == 0 ==> v == Nothing
    ensures r.Done? && r.value.totalVotos > 0 ==>
      && v.Board? && v.total == r.value.totalVotos
      && |v.bars| == |r.value.resultados|
      && forall i :: 0 <= i < |v.bars| ==>
           && v.bars[i].projetoId == r.value.resultados[i].projetoId
           && v.bars[i].votos == r.value.resultados[i].votos
           && v.bars[i].colour == Colours[i % 8]
           && (v.bars[i].suffix == "" <==> v.bars[i].votos == 1)
  {
    match r
    case Fail(_, e) => Note(if e == "" then DefaultError else e)
    case Looping => Nothing
    case Done(_, rep) =>
      if rep.totalVotos == 0 then Nothing
      else
        var max := MaxVotes(rep.resultados);
        var es := rep.resultados;
        Board(rep.totalVotos, Plural(rep.totalVotos),
              seq(|es|, i requires 0 <= i < |es| => ToBar(es[i], i, max)))
  }

  /** The maximum of a non-increasing, non-empty list is its first entry. */
  lemma MaxOfSorted(es: seq<Results.Entry>)
    requires |es| > 0
    requires forall i, j :: 0 <= i < j < |es| ==> es[i].votos >= es[j].votos
    ensures MaxVotes(es) == Some(es[0].votos)
  {
    var m := MaxVotes(es).value;
    var k :| 0 <= k < |es| && es[k].votos == m;
    if k > 0 {
      assert es[0].votos >= es[k].votos;
    }
  }

  /** A report with a positive, non-increasing list of entries: the first
      bar leads, and a bar leads exactly when it ties with the first. */
  lemma LeaderOfSorted(rep: Results.Report)
    requires rep.totalVotos > 0 && |rep.resultados| > 0 && rep.resultados[0].votos > 0
    requires forall i, j :: 0 <= i < j < |rep.resultados| ==> rep.resultados[i].votos >= rep.resultados[j].votos
    ensures var v := Show(Done(200, rep));
      && v.Board? && |v.bars| > 0 && v.bars[0].leader
      && forall i :: 0 <= i < |v.bars| ==> (v.bars[i].leader <==> v.bars[i].votos == v.bars[0].votos)
  {
    MaxOfSorted(rep.resultados);
  }

  /** A successful answer of the results route is never shown as the empty
      state, and its first bar carries the leader mark. */
  lemma LeaderIsFirst(st: Store, a: Auth, q: Option<int>)
    requires Results.GetResults(st, a, q).Done?
    ensures var v := Show(Results.GetResults(st, a, q));
      && v.Board? && |v.bars| > 0 && v.bars[0].leader
      && forall i :: 0 <= i < |v.bars| ==> (v.bars[i].leader <==> v.bars[i].votos == v.bars[0].votos)
  {
    var r := Results.GetResults(st, a, q);
    var rep := r.value;
    var es := rep.resultados;
    var vs := Results.SessionVotes(st, q.value);
    assert Results.Tallied(vs, rep.totalVotos, es);
    assert |vs| > 0;
    assert vs[0] in vs;
    var k :| 0 <= k < |es| && es[k].projetoId == vs[0].projetoId;
    assert |es| > 0 && es[0].votos >= 1;
    LeaderOfSorted(rep);
    assert r == Done(200, rep);
  }
}
