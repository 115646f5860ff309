/** The sign-up page: its two form schemas (one per kind of account), the
    digits-only CPF it submits, the body it posts to the user route, and
    the page it sends the new user to. */
module Signup {

  import opened Wrappers
  import opened Text
  import opened Domain
  import opened Forms
  import Cpf
  import Users
  import Communities

  /** The two kinds of account the page offers; ADMIN is not among them. */
  datatype Kind = AsGestor | AsParticipante

  function KindRole(k: Kind): Role
  {
    match k
    case AsGestor => Gestor
    case AsParticipante => Participante
  }

  /** The form's values. Every input holds a string: the form starts them
      all at the empty string. `codigo` is only read for a participant. */
  datatype SignupForm = SignupForm(email: string, password: string, nome: string, tipo: Kind,
                                   codigo: string, cpf: string)

  const NameShort := "Nome deve ter no mínimo 2 caracteres"
  const CodeRequired := "Código da comunidade é obrigatório"
  const CpfDigits := "CPF deve conter 11 dígitos numéricos"

  /** The field checks of `gestorSchema` or `participanteSchema`, in field
      order, each reported at its field. */
  function FieldIssues(f: SignupForm, isEmail: string -> bool): (r: seq<Issue>)
    ensures |r| == 0 <==>
      && isEmail(f.email) && |f.password| >= 6 && |f.nome| >= 2
      && (f.tipo == AsParticipante ==> |f.codigo| >= 6)
    ensures forall i :: i in r ==> i.path != "cpf" && i.path != Root && i.message != CpfDigits
  {
    (if !isEmail(f.email) then [Issue("email", Users.EmailInvalid)] else [])
    + (if |f.password| < 6 then [Issue("password", Users.PasswordShort)] else [])
    + (if |f.nome| < 2 then [Issue("nome", NameShort)] else [])
    + (if f.tipo == AsParticipante && |f.codigo| < 6 then [Issue("codigoComunidade", CodeRequired)] else [])
  }

  /** The issues of `gestorSchema` or `participanteSchema`: the field
      checks, then the CPF refine. Every field has the right type, so the
      refine runs even when a field check fails; it names no `path`, so
      its issue is reported at the root of the form. */
  function SignupIssues(f: SignupForm, isEmail: string -> bool): (r: seq<Issue>)
    ensures |r| == 0 <==>
      && isEmail(f.email) && |f.password| >= 6 && |f.nome| >= 2
      && (f.tipo == AsParticipante ==> |f.codigo| >= 6)
      && Cpf.SignupCpfAccepted(Some(f.cpf))
    ensures Issue(Root, CpfDigits) in r <==> !Cpf.SignupCpfAccepted(Some(f.cpf))
  {
    FieldIssues(f, isEmail)
    + (if !Cpf.SignupCpfAccepted(Some(f.cpf)) then [Issue(Root, CpfDigits)] else [])
  }

  /** The fields the page renders with a `<FormMessage />`. */
  const Displayed := ["nome", "cpf", "email", "password", "codigoComunidade"]

  /** As written, a CPF the refine refuses blocks the sign-up, yet no field
      of the page shows the CPF message, and the CPF field shows nothing;
      when the other fields are filled in correctly, the page shows no
      message at all. */
  lemma CpfRefusedSilently(f: SignupForm, isEmail: string -> bool)
    requires !Cpf.SignupCpfAccepted(Some(f.cpf))
    ensures |SignupIssues(f, isEmail)| > 0
    ensures FirstAt(SignupIssues(f, isEmail), "cpf").None?
    ensures forall field :: field in Displayed ==> FirstAt(SignupIssues(f, isEmail), field) != Some(CpfDigits)
    ensures |FieldIssues(f, isEmail)| == 0 ==>
      forall field :: field in Displayed ==> FirstAt(SignupIssues(f, isEmail), field).None?
  {
    forall field | field in Displayed
      ensures FirstAt(SignupIssues(f, isEmail), field) == FirstAt(FieldIssues(f, isEmail), field)
    {
      OnlyFieldsShown(f, isEmail, field);
    }
  }

  /** A field shows what the field checks report at it: the refine's issue
      is at the root, which no field is. */
  lemma OnlyFieldsShown(f: SignupForm, isEmail: string -> bool, field: string)
    requires field != Root
    ensures FirstAt(SignupIssues(f, isEmail), field) == FirstAt(FieldIssues(f, isEmail), field)
  {
    var tail := if !Cpf.SignupCpfAccepted(Some(f.cpf)) then [Issue(Root, CpfDigits)] else [];
    FirstAtAppend(FieldIssues(f, isEmail), tail, field);
    assert FirstAt(tail, field).None?;
  }

  /** The schemas as evidently intended, with the refine's issue reported at
      `path: ['cpf']`. */
  function SignupIssuesIntended(f: SignupForm, isEmail: string -> bool): (r: seq<Issue>)
    ensures |r| == 0 <==>
      && isEmail(f.email) && |f.password| >= 6 && |f.nome| >= 2
      && (f.tipo == AsParticipante ==> |f.codigo| >= 6)
      && Cpf.SignupCpfAccepted(Some(f.cpf))
  {
    FieldIssues(f, isEmail)
    + (if !Cpf.SignupCpfAccepted(Some(f.cpf)) then [Issue("cpf", CpfDigits)] else [])
  }

  /** With the intended path, the CPF field shows the CPF message exactly
      when the CPF is refused, and the schemas accept the same forms. */
  lemma CpfRefusalShown(f: SignupForm, isEmail: string -> bool)
    ensures FirstAt(SignupIssuesIntended(f, isEmail), "cpf") == Some(CpfDigits)
      <==> !Cpf.SignupCpfAccepted(Some(f.cpf))
    ensures |SignupIssuesIntended(f, isEmail)| == 0 <==> |SignupIssues(f, isEmail)| == 0
  {
    var tail := if !Cpf.SignupCpfAccepted(Some(f.cpf)) then [Issue("cpf", CpfDigits)] else [];
    FirstAtAppend(FieldIssues(f, isEmail), tail, "cpf");
  }

  /** The CPF the page submits: absent when the input is empty, otherwise
      its digits with the mask removed. */
  function SubmittedCpf(cpf: string): (r: Option<string>)
    ensures r.None? <==> cpf == ""
    ensures r.Some? ==> AllDigits(r.value) && |r.value| <= |cpf|
  {
    if cpf == "" then None else Some(Digits(cpf))
  }

  /** The body posted to `/api/usuarios`; the password travels under
      `password_hash` and is hashed by the route. */
  function SignupBody(f: SignupForm): Users.UserBody
  {
    Users.UserBody(Some(f.email), Some(f.password), Some(RoleName(KindRole(f.tipo))),
                   Some(f.nome), SubmittedCpf(f.cpf))
  }

  /** A form the page accepts is a body the route accepts, whose stored
      CPF is absent or exactly eleven digits, whose name is kept, and whose
      community code (for a participant) passes the join route's schema. */
  lemma ClientValidIsServerValid(f: SignupForm, isEmail: string -> bool)
    requires |SignupIssuesIntended(f, isEmail)| == 0
    ensures |Users.UserBodyIssues(SignupBody(f), isEmail)| == 0
    ensures var c := Nullable(SignupBody(f).cpf); c.None? || (|c.value| == 11 && AllDigits(c.value))
    ensures Nullable(SignupBody(f).nome) == Some(f.nome)
    ensures ParseRole(SignupBody(f).tipo.value) == Some(KindRole(f.tipo))
    ensures f.tipo == AsParticipante ==> Communities.CodeValid(Communities.JoinBody(Some(f.codigo)))
  {
    ParseRoleName(KindRole(f.tipo));
  }

  /** The page creates GESTOR and PARTICIPANTE accounts only, of the kind
      chosen, and the route turns them down only for a taken email or CPF. */
  lemma SignupRole(st: Store, f: SignupForm, isEmail: string -> bool, hash: string -> string)
    requires |SignupIssuesIntended(f, isEmail)| == 0
    ensures var r := Users.PostUser(st, SignupBody(f), isEmail, hash);
      && (r.Done? <==> !EmailInUse(st, f.email) && !CpfInUse(st, Nullable(SubmittedCpf(f.cpf))))
      && (r.Done? ==> r.value.0.tipo == KindRole(f.tipo) && r.value.0.tipo != Admin)
  {
    ClientValidIsServerValid(f, isEmail);
  }

  /** A CPF typed through the page's mask is submitted as the digits typed,
      up to eleven. */
  lemma MaskedCpfSubmitted(v: string)
    requires Cpf.Format(v) != ""
    ensures SubmittedCpf(Cpf.Format(v)) == Some(Digits(v)[..Cpf.Min(|Digits(v)|, 11)])
  {
    Cpf.FormatKeepsDigits(v);
  }

  /** `getRedirectUrl`. */
  function RedirectUrl(tipo: string): (r: string)
    ensures ParseRole(tipo).Some? ==> r == Dashboard(ParseRole(tipo).value)
    ensures ParseRole(tipo).None? ==> r == "/dashboard"
  {
    if tipo == "ADMIN" then "/admin/dashboard"
    else if tipo == "GESTOR" then "/gestor/dashboard"
    else if tipo == "PARTICIPANTE" then "/participante/dashboard"
    else "/dashboard"
  }

  /** The page lands every new account on its own role's dashboard, the
      page the middleware's `/dashboard` redirect also picks. */
  lemma RedirectToOwnDashboard(f: SignupForm)
    ensures RedirectUrl(RoleName(KindRole(f.tipo))) == Dashboard(KindRole(f.tipo))
  {
    ParseRoleName(KindRole(f.tipo));
  }
}
