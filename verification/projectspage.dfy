/** The projects page: the search box and session filter, the votes total,
    who sees the create and edit controls, and the project dialog with the
    body it posts. */
module ProjectsPage {

  import opened Wrappers
  import opened Seqs
  import opened Text
  import opened Domain
  import opened Policy
  import Sessions
  import Projects
  import VotesPage
  import Dialogs

  /** A row of the list: a project and the `_count.votos` the project
      route attaches to it. */
  datatype Row = Row(projeto: Project, votos: nat)

  // The search box and the session filter

  /** A row kept by an already lower-cased search and the session filter:
      the search occurs in the lower-cased title or in the lower-cased
      author, a missing author reading as the empty string. */
  function Keeps(q: string, f: VotesPage.Pick): Row -> bool
  {
    (r: Row) =>
      && (|| Contains(Lower(r.projeto.titulo), q)
          || Contains(if r.projeto.autorResponsavel.Some? then Lower(r.projeto.autorResponsavel.value) else "", q))
      && VotesPage.Matches(f, r.projeto.sessaoId)
  }

  /** `projetosFiltrados`, in the order loaded; with the empty search and
      "todas" every row stays. */
  function Shown(rows: seq<Row>, busca: string, f: VotesPage.Pick): (r: seq<Row>)
    ensures forall x :: x in r <==> x in rows && Keeps(Lower(busca), f)(x)
    ensures IsSubsequence(r, rows)
    ensures busca == "" && f.Any? ==> r == rows
  {
    FilterIsSubsequence(rows, Keeps(Lower(busca), f));
    assert busca == "" && f.Any? ==> Filter(rows, Keeps(Lower(busca), f)) == rows by {
      if busca == "" && f.Any? {
        forall i | 0 <= i < |rows|
          ensures Keeps(Lower(busca), f)(rows[i])
        {
          ContainsEmpty(Lower(rows[i].projeto.titulo));
        }
        FilterAll(rows, Keeps(Lower(busca), f));
      }
    }
    Filter(rows, Keeps(Lower(busca), f))
  }

  /** The search ignores case. */
  lemma ShownIgnoresCase(rows: seq<Row>, busca: string, f: VotesPage.Pick)
    ensures Shown(rows, Upper(busca), f) == Shown(rows, busca, f)
  {
    LowerOfUpper(busca);
  }

  const NoneRegistered := "Nenhum projeto cadastrado"
  const NoneFound := "Nenhum projeto encontrado"

  /** The note shown instead of the table. */
  function EmptyNote(rows: seq<Row>, busca: string, f: VotesPage.Pick): (r: Option<string>)
    ensures r.Some? <==> |Shown(rows, busca, f)| == 0
    ensures r == Some(NoneFound) ==> |rows| > 0 && (busca != "" || f.Id?)
  {
    if |Shown(rows, busca, f)| > 0 then None
    else if |rows| == 0 then Some(NoneRegistered)
    else Some(NoneFound)
  }

  // The votes total

  function RowVotes(r: Row): int
  {
    r.votos
  }

  /** `totalVotos`: the votes of every loaded project. */
  function TotalVotes(rows: seq<Row>): (t: nat)
    ensures forall i :: 0 <= i < |rows| ==> rows[i].votos <= t
  {
    SumNonNegative(rows, RowVotes);
    forall i | 0 <= i < |rows|
      ensures rows[i].votos <= Sum(rows, RowVotes)
    {
      SumElementBound(rows, RowVotes, i);
    }
    Sum(rows, RowVotes)
  }

  /** The total does not follow the search or the filter: it never falls
      short of the votes of the rows shown, and equals them when nothing
      is filtered out. */
  lemma TotalIgnoresFilters(rows: seq<Row>, busca: string, f: VotesPage.Pick)
    ensures Sum(Shown(rows, busca, f), RowVotes) <= TotalVotes(rows)
    ensures busca == "" && f.Any? ==> Sum(Shown(rows, busca, f), RowVotes) == TotalVotes(rows)
  {
    SumFilterBound(rows, Keeps(Lower(busca), f), RowVotes);
  }

  // Who sees the controls

  /** `isGestor`: "Novo Projeto" and the edit and delete buttons are shown to
      a GESTOR only. */
  predicate MayEdit(me: Option<Payload>)
  {
    me.Some? && me.value.tipo == Gestor
  }

  // The project dialog

  /** The dialog's values; the session select starts at 0. */
  datatype ProjectForm = ProjectForm(titulo: string, descricao: string, autor: string, sessaoId: int)

  const PickSession := "Selecione uma sessão"

  /** The values `defaultValues` names for a project being edited: a
      missing description or author shows as the empty string. */
  function EditStart(p: Project): (f: ProjectForm)
    ensures f.titulo == p.titulo && f.sessaoId == p.sessaoId
    ensures f.descricao == "" <==> Nullable(p.descricaoDetalhada).None?
  {
    ProjectForm(p.titulo, if p.descricaoDetalhada.Some? then p.descricaoDetalhada.value else "",
                if p.autorResponsavel.Some? then p.autorResponsavel.value else "", p.sessaoId)
  }

  /** The values `defaultValues` names with no project being edited, which
      is how the always-mounted dialog first renders. */
  const NewStart := ProjectForm("", "", "", 0)

  /** The dialog's `formSchema`: a title and a session id of at least 1. */
  function FormIssues(f: ProjectForm): (r: seq<string>)
    ensures |r| == 0 <==> f.titulo != "" && f.sessaoId >= 1
  {
    (if |f.titulo| < 1 then [Sessions.TitleRequired] else [])
    + (if f.sessaoId < 1 then [PickSession] else [])
  }

  /** `value || null` as the dialog writes it into the body. */
  function OrNull(s: string): (r: Projects.JsonText)
    ensures r.Null? <==> s == ""
    ensures r.Given? ==> r.value == s
  {
    if s == "" then Null else Given(s)
  }

  /** The body `handleSalvar` posts as written: an empty description or
      author is sent as `null`. */
  function FormBody(f: ProjectForm): (b: Projects.ProjectBody)
    ensures b.titulo == Given(f.titulo) && b.sessaoId == Given(f.sessaoId)
    ensures b.descricaoDetalhada.Null? <==> f.descricao == ""
  {
    Projects.ProjectBody(Given(f.titulo), OrNull(f.descricao), OrNull(f.autor), Given(f.sessaoId))
  }

  /** The route's schema takes an optional description and author as
      strings and turns `null` away, so a dialog the page accepts with the
      description or the author left empty is refused with 400, whoever
      sends it. */
  lemma EmptyFieldRefused(st: Store, a: Auth, f: ProjectForm)
    requires |FormIssues(f)| == 0 && (f.descricao == "" || f.autor == "")
    ensures Projects.PostProject(st, a, FormBody(f)).Fail?
    ensures Projects.PostProject(st, a, FormBody(f)).code == 400
  {
  }

  /** An empty text field left out of the body. */
  function OrAbsent(s: string): (r: Projects.JsonText)
    ensures !r.Null?
    ensures Projects.Stored(r) == Nullable(Some(s))
  {
    if s == "" then Absent else Given(s)
  }

  /** The body with an empty description or author left out, which the
      route's schema accepts. */
  function FormBodyIntended(f: ProjectForm): (b: Projects.ProjectBody)
    ensures b.titulo == Given(f.titulo) && b.sessaoId == Given(f.sessaoId)
    ensures |FormIssues(f)| == 0 ==> |Projects.ProjectBodyIssues(b)| == 0
  {
    Projects.ProjectBody(Given(f.titulo), OrAbsent(f.descricao), OrAbsent(f.autor), Given(f.sessaoId))
  }

  /** A project created from the dialog stores an empty description or
      author as `null` and the rest as typed. */
  lemma IntendedBodyStored(st: Store, a: Auth, f: ProjectForm)
    requires Projects.PostProject(st, a, FormBodyIntended(f)).Done?
    ensures var x := Projects.PostProject(st, a, FormBodyIntended(f)).value.0;
      && x.titulo == f.titulo && x.sessaoId == f.sessaoId
      && x.descricaoDetalhada == Nullable(Some(f.descricao))
      && x.autorResponsavel == Nullable(Some(f.autor))
  {
  }

  /** Every session the GESTOR's select offers (the session route's listing
      for them) is one the project route lets them add to: with a free
      title the project is created. */
  lemma OfferedSessionAccepted(st: Store, p: Payload, f: ProjectForm)
    requires p.tipo == Gestor && |FormIssues(f)| == 0
    requires FindSession(st, f.sessaoId).Some?
    requires FindSession(st, f.sessaoId).value in Sessions.GetSessions(st, Valid(p), None, None).value
    requires !Projects.TitleInSession(st, f.titulo, f.sessaoId)
    ensures MayEdit(Some(p))
    ensures Projects.PostProject(st, Valid(p), FormBodyIntended(f)).Done?
  {
  }

  /** The page hides creation from an ADMIN, whom the route lets create in
      any existing session. */
  lemma AdminHiddenButAllowed(st: Store, p: Payload, f: ProjectForm)
    requires p.tipo == Admin && |FormIssues(f)| == 0
    requires FindSession(st, f.sessaoId).Some? && !Projects.TitleInSession(st, f.titulo, f.sessaoId)
    ensures !MayEdit(Some(p))
    ensures Projects.PostProject(st, Valid(p), FormBodyIntended(f)).Done?
  {
  }

  /** As written, the dialog shows the values it first rendered with, or
      the last ones typed, whichever project it is opened on: opened on a
      project before anything was typed, it shows an empty title and no
      session, and cannot be saved. */
  lemma FirstEditBlank(evs: seq<Dialogs.Event<Project, ProjectForm>>, p: Project)
    requires Dialogs.Untyped(evs)
    ensures var f := Dialogs.Held(NewStart, evs + [Dialogs.OpenEdit(p)]);
      && f.titulo == "" && f.sessaoId == 0
      && (p.titulo != "" ==> f.titulo != p.titulo)
      && |FormIssues(f)| == 2
  {
    Dialogs.OpeningKeeps(NewStart, evs, p);
  }

  /** With the form reset on opening, the dialog opened on a project shows
      it; saved untouched with the corrected body, it passes the route's
      schema when the project has a title and a session, and sends the
      project's own title, session, description and author. */
  lemma EditOpensOnProject(evs: seq<Dialogs.Event<Project, ProjectForm>>, p: Project,
                           later: seq<Dialogs.Event<Project, ProjectForm>>)
    requires Dialogs.AllClosed(later)
    ensures var f := Dialogs.HeldIntended(NewStart, EditStart, evs + [Dialogs.OpenEdit(p)] + later);
      && f == EditStart(p)
      && (p.titulo != "" && p.sessaoId >= 1 ==> |Projects.ProjectBodyIssues(FormBodyIntended(f))| == 0)
      && FormBodyIntended(f).titulo == Given(p.titulo) && FormBodyIntended(f).sessaoId == Given(p.sessaoId)
      && Projects.Stored(FormBodyIntended(f).descricaoDetalhada) == Nullable(p.descricaoDetalhada)
      && Projects.Stored(FormBodyIntended(f).autorResponsavel) == Nullable(p.autorResponsavel)
  {
    Dialogs.ShowsOpenedRow(NewStart, EditStart, evs, p, later);
  }
}
