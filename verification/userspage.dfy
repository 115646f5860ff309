/** The ADMIN's users page: the search box, the counters, the role badge,
    the user dialog's schema, and what saving the dialog sends. */
module UsersPage {

  import opened Wrappers
  import opened Seqs
  import opened Text
  import opened Domain
  import Users
  import Dialogs

  // The search box

  /** A user row is hit by an already lower-cased search when it occurs in
      the lower-cased email, name or role name; a missing name hits
      nothing. */
  function Hits(q: string): Users.ListedUser -> bool
  {
    (u: Users.ListedUser) =>
      || Contains(Lower(u.email), q)
      || (u.nome.Some? && Contains(Lower(u.nome.value), q))
      || Contains(Lower(RoleName(u.tipo)), q)
  }

  /** `usuariosFiltrados`: the loaded users the search hits, in the order
      loaded; the empty search keeps them all. */
  function Search(us: seq<Users.ListedUser>, busca: string): (r: seq<Users.ListedUser>)
    ensures forall u :: u in r <==> u in us && Hits(Lower(busca))(u)
    ensures IsSubsequence(r, us)
    ensures busca == "" ==> r == us
  {
    FilterIsSubsequence(us, Hits(Lower(busca)));
    assert busca == "" ==> Filter(us, Hits(Lower(busca))) == us by {
      if busca == "" {
        forall i | 0 <= i < |us|
          ensures Hits(Lower(busca))(us[i])
        {
          ContainsEmpty(Lower(us[i].email));
        }
        FilterAll(us, Hits(Lower(busca)));
      }
    }
    Filter(us, Hits(Lower(busca)))
  }

  /** The search ignores case: a search and its upper-cased spelling list
      the same users. */
  lemma SearchIgnoresCase(us: seq<Users.ListedUser>, busca: string)
    ensures Search(us, Upper(busca)) == Search(us, busca)
  {
    LowerOfUpper(busca);
  }

  /** Searching for a role's name lists every user of that role. */
  lemma RoleNameFindsRole(us: seq<Users.ListedUser>, r: Role, u: Users.ListedUser)
    requires u in us && u.tipo == r
    ensures u in Search(us, RoleName(r))
  {
    assert OccursAt(Lower(RoleName(r)), Lower(RoleName(r)), 0);
  }

  const NoneRegistered := "Nenhum usuário cadastrado"
  const NoneFound := "Nenhum usuário encontrado"

  /** The note shown instead of the table: none while some row is hit. */
  function EmptyNote(us: seq<Users.ListedUser>, busca: string): (r: Option<string>)
    ensures r.Some? <==> |Search(us, busca)| == 0
    ensures r == Some(NoneFound) ==> busca != "" && |us| > 0
  {
    if |Search(us, busca)| > 0 then None
    else if |us| == 0 then Some(NoneRegistered)
    else Some(NoneFound)
  }

  // The counters and the badge

  function IsAdmin(u: Users.ListedUser): bool { u.tipo == Admin }

  function IsParticipante(u: Users.ListedUser): bool { u.tipo == Participante }

  function IsGestor(u: Users.ListedUser): bool { u.tipo == Gestor }

  function NotGestor(u: Users.ListedUser): bool { u.tipo != Gestor }

  function Anyone(u: Users.ListedUser): bool { true }

  /** The three counters: every user, `totalAdmins` and
      `totalParticipantes`. */
  datatype Counters = Counters(total: nat, admins: nat, participantes: nat)

  /** The counters over the loaded users. The page has no GESTOR counter:
      the total exceeds the two role counters by the number of GESTORs. */
  function CountUsers(us: seq<Users.ListedUser>): (c: Counters)
    ensures c.total == c.admins + c.participantes + Count(us, IsGestor)
    ensures c.total == |us|
  {
    CountDisjoint(us, IsAdmin, IsParticipante, NotGestor);
    CountDisjoint(us, NotGestor, IsGestor, Anyone);
    FilterAll(us, Anyone);
    Counters(|us|, Count(us, IsAdmin), Count(us, IsParticipante))
  }

  /** The role badge: "Admin" for an ADMIN and "Participante" for anyone
      else. */
  function Badge(t: Role): string
  {
    if t == Admin then "Admin" else "Participante"
  }

  /** A GESTOR wears the "Participante" badge but is not counted among the
      participants, so the counters of a list holding one do not add up. */
  lemma GestorMislabelled(u: Users.ListedUser)
    requires u.tipo == Gestor
    ensures Badge(u.tipo) == "Participante"
    ensures var c := CountUsers([u]); c.participantes == 0 && c.admins + c.participantes < c.total
  {
    assert Filter([u], IsParticipante) == [];
    assert Filter([u], IsAdmin) == [];
  }

  /** Over the route's listing the total is the number of stored users. */
  lemma CountersOverListing(st: Store)
    ensures CountUsers(Users.GetUsers(st).value).total == |st.users|
    ensures CountUsers(Users.GetUsers(st).value).total
         == CountUsers(Users.GetUsers(st).value).admins + CountUsers(Users.GetUsers(st).value).participantes
       <==> forall u :: u in st.users ==> u.tipo != Gestor
  {
    var ls := Users.GetUsers(st).value;
    if exists u :: u in st.users && u.tipo == Gestor {
      var u :| u in st.users && u.tipo == Gestor;
      assert Users.Listing(u) in ls;
      assert Users.Listing(u) in Filter(ls, IsGestor);
    } else {
      forall i | 0 <= i < |ls|
        ensures !IsGestor(ls[i])
      {
        assert ls[i] in ls;
        var u :| u in st.users && ls[i] == Users.Listing(u);
      }
      NoneInCounted(ls, IsGestor);
    }
  }

  // The user dialog

  /** The dialog's values; the password field starts empty, also when
      editing. */
  datatype UserForm = UserForm(email: string, password: string, tipo: string, nome: string)

  /** The values `defaultValues` names for a user being edited: their
      email, role and name, and a blank password. */
  function EditStart(u: Users.ListedUser): (f: UserForm)
    ensures f.password == "" && f.email == u.email && f.tipo == RoleName(u.tipo)
  {
    UserForm(u.email, "", RoleName(u.tipo), if u.nome.Some? then u.nome.value else "")
  }

  /** The values `defaultValues` names with no user being edited, which is
      how the always-mounted dialog first renders. */
  const NewStart := UserForm("", "", "PARTICIPANTE", "")

  /** The message of the dialog's `z.enum`, which offers two roles. */
  function FormEnumMessage(received: string): string
  {
    "Invalid enum value. Expected 'ADMIN' | 'PARTICIPANTE', received '" + received + "'"
  }

  predicate FormRole(t: string)
  {
    t == "ADMIN" || t == "PARTICIPANTE"
  }

  /** The dialog's `formSchema` as written: the password is an optional
      string of at least six characters, and the empty string the field
      holds is a string, so it fails the bound. */
  function FormIssues(f: UserForm, isEmail: string -> bool): (r: seq<string>)
    ensures |r| == 0 <==> isEmail(f.email) && |f.password| >= 6 && FormRole(f.tipo)
    ensures f.password == "" ==> Users.PasswordShort in r
  {
    (if !isEmail(f.email) then [Users.EmailInvalid] else [])
    + (if |f.password| < 6 then [Users.PasswordShort] else [])
    + (if !FormRole(f.tipo) then [FormEnumMessage(f.tipo)] else [])
  }

  /** The schema with a blank password read as "unchanged": the empty
      string or at least six characters. */
  function FormIssuesIntended(f: UserForm, isEmail: string -> bool): (r: seq<string>)
    ensures |r| == 0 <==> isEmail(f.email) && (f.password == "" || |f.password| >= 6) && FormRole(f.tipo)
    ensures |FormIssues(f, isEmail)| == 0 ==> |r| == 0
  {
    (if !isEmail(f.email) then [Users.EmailInvalid] else [])
    + (if 0 < |f.password| < 6 then [Users.PasswordShort] else [])
    + (if !FormRole(f.tipo) then [FormEnumMessage(f.tipo)] else [])
  }

  /** The body of an edit: the password only when one was typed, and an
      empty name sent as `null` (`None`). */
  datatype UpdateBody = UpdateBody(email: string, tipo: string, nome: Option<string>, password: Option<string>)

  /** What saving the dialog does: an update of the user being edited, a
      creation, or the "password required" toast of a creation. */
  datatype Request =
    | Update(id: int, changes: UpdateBody)
    | Create(created: Users.UserBody)
    | Refused(message: string)

  const PasswordRequired := "Senha é obrigatória para criar novo usuário"

  /** `handleSalvar`, given values the schema let through. */
  function Save(f: UserForm, editing: Option<Users.ListedUser>): (r: Request)
    ensures editing.Some? ==>
      && r.Update? && r.id == editing.value.id
      && r.changes.email == f.email && r.changes.tipo == f.tipo
      && (r.changes.password.Some? <==> f.password != "")
      && (r.changes.password.Some? ==> r.changes.password.value == f.password)
      && r.changes.nome == Nullable(Some(f.nome))
    ensures editing.None? ==> (r.Refused? <==> f.password == "")
    ensures editing.None? && !r.Refused? ==>
      && r.Create?
      && r.created.password == Some(f.password) && r.created.email == Some(f.email)
      && r.created.tipo == Some(f.tipo) && r.created.nome == Nullable(Some(f.nome))
  {
    if editing.Some? then
      Update(editing.value.id,
             UpdateBody(f.email, f.tipo, if f.nome == "" then None else Some(f.nome),
                        if f.password == "" then None else Some(f.password)))
    else if f.password == "" then Refused(PasswordRequired)
    else Create(Users.UserBody(Some(f.email), Some(f.password), Some(f.tipo),
                               if f.nome == "" then None else Some(f.nome), None))
  }

  /** Saving the dialog as written: the schema holds the values back
      (`None`) or passes them to `handleSalvar`. A blank password never
      passes, so the "password required" toast is never shown. */
  function Submit(f: UserForm, editing: Option<Users.ListedUser>, isEmail: string -> bool): (r: Option<Request>)
    ensures r.None? <==> |FormIssues(f, isEmail)| > 0
    ensures r.Some? ==> r.value == Save(f, editing)
    ensures f.password == "" ==> r.None?
    ensures r.Some? ==> !r.value.Refused?
  {
    if |FormIssues(f, isEmail)| > 0 then None else Some(Save(f, editing))
  }

  /** Saving the dialog under the corrected schema. */
  function SubmitIntended(f: UserForm, editing: Option<Users.ListedUser>, isEmail: string -> bool): (r: Option<Request>)
    ensures r.None? <==> |FormIssuesIntended(f, isEmail)| > 0
    ensures r.Some? ==> r.value == Save(f, editing)
    ensures Submit(f, editing, isEmail).Some? ==> r == Submit(f, editing, isEmail)
  {
    if |FormIssuesIntended(f, isEmail)| > 0 then None else Some(Save(f, editing))
  }

  /** As written, the dialog cannot be saved with its password left blank,
      though `handleSalvar` reads a blank password as "keep the current
      one". */
  lemma BlankPasswordBlocked(f: UserForm, editing: Option<Users.ListedUser>, isEmail: string -> bool)
    requires f.password == ""
    ensures Users.PasswordShort in FormIssues(f, isEmail)
    ensures Submit(f, editing, isEmail).None?
  {
  }

  /** The role select offers ADMIN and PARTICIPANTE only, so a saved edit of
      a GESTOR always changes their role. */
  lemma GestorEditChangesRole(f: UserForm, u: Users.ListedUser, isEmail: string -> bool)
    requires u.tipo == Gestor
    requires Submit(f, Some(u), isEmail).Some?
    ensures Submit(f, Some(u), isEmail).value.changes.tipo != RoleName(u.tipo)
  {
  }

  /** With the corrected schema, an edit with a valid email, an offered role
      and a blank password is saved, and sends no password. */
  lemma BlankPasswordKept(f: UserForm, u: Users.ListedUser, isEmail: string -> bool)
    requires isEmail(f.email) && FormRole(f.tipo) && f.password == ""
    ensures var r := SubmitIntended(f, Some(u), isEmail);
      r.Some? && r.value.Update? && r.value.id == u.id && r.value.changes.password.None?
  {
  }

  /** As written, the dialog shows the values it first rendered with, or the
      last ones typed, whichever user it is opened on: opened on a user
      before anything was typed, it shows an empty email and the role
      PARTICIPANTE, and cannot be saved under either schema. */
  lemma FirstEditBlank(evs: seq<Dialogs.Event<Users.ListedUser, UserForm>>, u: Users.ListedUser,
                       isEmail: string -> bool)
    requires Dialogs.Untyped(evs) && !isEmail("")
    ensures var f := Dialogs.Held(NewStart, evs + [Dialogs.OpenEdit(u)]);
      && f.email == "" && f.tipo == "PARTICIPANTE"
      && (u.tipo == Admin ==> f.tipo != RoleName(u.tipo))
      && Submit(f, Some(u), isEmail).None? && SubmitIntended(f, Some(u), isEmail).None?
  {
    Dialogs.OpeningKeeps(NewStart, evs, u);
  }

  /** With the form reset on opening, the dialog opened on an ADMIN or a
      PARTICIPANTE with a valid email shows that user, and saving it
      untouched under the corrected schema updates that user with their
      own email and role and no password. */
  lemma EditOpensOnUser(evs: seq<Dialogs.Event<Users.ListedUser, UserForm>>, u: Users.ListedUser,
                        later: seq<Dialogs.Event<Users.ListedUser, UserForm>>, isEmail: string -> bool)
    requires Dialogs.AllClosed(later)
    requires isEmail(u.email) && u.tipo != Gestor
    ensures var f := Dialogs.HeldIntended(NewStart, EditStart, evs + [Dialogs.OpenEdit(u)] + later);
      && f == EditStart(u)
      && SubmitIntended(f, Some(u), isEmail)
         == Some(Update(u.id, UpdateBody(u.email, RoleName(u.tipo), Nullable(u.nome), None)))
  {
    Dialogs.ShowsOpenedRow(NewStart, EditStart, evs, u, later);
  }

  /** A creation the dialog sends passes the route's schema; when the email
      is free the route creates the user with the role and name of the
      dialog, and that role is never GESTOR. */
  lemma CreateAccepted(st: Store, f: UserForm, isEmail: string -> bool, hash: string -> string)
    requires Submit(f, None, isEmail).Some? && Submit(f, None, isEmail).value.Create?
    ensures var b := Submit(f, None, isEmail).value.created;
      && |Users.UserBodyIssues(b, isEmail)| == 0
      && (Users.PostUser(st, b, isEmail, hash).Done? <==> !EmailInUse(st, f.email))
      && (Users.PostUser(st, b, isEmail, hash).Done? ==>
            var c := Users.PostUser(st, b, isEmail, hash).value.0;
            c.tipo != Gestor && RoleName(c.tipo) == f.tipo && c.nome == Nullable(Some(f.nome)))
  {
    var b := Submit(f, None, isEmail).value.created;
    assert ParseRole(f.tipo).Some? && ParseRole(f.tipo).value != Gestor;
    ParseRoleName(ParseRole(f.tipo).value);
  }
}
