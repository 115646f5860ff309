/** The manager's profile page: the schemas of its name, CPF and password
    dialogs, the CPF input mask, and the body of the password change. */
module Profile {

  import opened Wrappers
  import opened Text
  import opened Forms
  import Cpf
  import Signup

  const NameRequired := "Nome é obrigatório"
  const CpfRequired := "CPF é obrigatório"
  const CpfBadFormat := "CPF inválido. Formato: XXX.XXX.XXX-XX"
  const CurrentRequired := "Senha atual é obrigatória"
  const NewShort := "Nova senha deve ter no mínimo 6 caracteres"
  const ConfirmRequired := "Confirmação de senha é obrigatória"
  const Mismatch := "As senhas não coincidem"

  /** `nomeSchema`. */
  function NameIssues(nome: string): (r: seq<string>)
    ensures |r| == 0 <==> nome != ""
  {
    if |nome| < 1 then [NameRequired] else []
  }

  /** `cpfSchema`: `min(1)` and the pattern each add their own issue. */
  function CpfIssues(cpf: string): (r: seq<string>)
    ensures |r| == 0 <==> Cpf.CpfPattern(cpf)
    ensures cpf == "" ==> r == [CpfRequired, CpfBadFormat]
  {
    (if |cpf| < 1 then [CpfRequired] else []) + (if !Cpf.CpfPattern(cpf) then [CpfBadFormat] else [])
  }

  /** What the CPF input holds after a keystroke: `mascaraCPF` of what was
      typed, which is the sign-up page's formatter. */
  function CpfInput(typed: string): (r: string)
    ensures |CpfIssues(r)| == 0 <==> |Digits(typed)| >= 11
  {
    Cpf.FormatMatchesPattern(typed);
    Cpf.Format(typed)
  }

  /** The password dialog's values. */
  datatype PasswordForm = PasswordForm(senhaAtual: string, novaSenha: string, confirmarSenha: string)

  /** `senhaSchema`: the three field checks, each at its field, then the
      refine comparing the new password with its confirmation, reported at
      `confirmarSenha` (it runs even when a field check failed, since every
      field is a string). */
  function PasswordIssues(f: PasswordForm): (r: seq<Issue>)
    ensures |r| == 0 <==>
      f.senhaAtual != "" && |f.novaSenha| >= 6 && f.confirmarSenha == f.novaSenha
    ensures Issue(Confirmation, Mismatch) in r <==> f.novaSenha != f.confirmarSenha
    ensures forall i :: i in r ==> i.path in PasswordFields
  {
    LeadIssues(f) + ConfirmationIssues(f)
  }

  /** The name of the confirmation field. */
  const Confirmation := "confirmarSenha"

  /** The names of the dialog's three fields, each with its `<FormMessage />`. */
  const PasswordFields := ["senhaAtual", "novaSenha", Confirmation]

  /** The checks of the two fields before the confirmation. */
  function LeadIssues(f: PasswordForm): (r: seq<Issue>)
    ensures forall i :: i in r ==> i.path == "senhaAtual" || i.path == "novaSenha"
  {
    (if |f.senhaAtual| < 1 then [Issue("senhaAtual", CurrentRequired)] else [])
    + (if |f.novaSenha| < 6 then [Issue("novaSenha", NewShort)] else [])
  }

  /** The confirmation's own check, then the refine. */
  function ConfirmationIssues(f: PasswordForm): (r: seq<Issue>)
    ensures forall i :: i in r ==> i.path == Confirmation
  {
    (if |f.confirmarSenha| < 6 then [Issue(Confirmation, ConfirmRequired)] else [])
    + (if f.novaSenha != f.confirmarSenha then [Issue(Confirmation, Mismatch)] else [])
  }

  /** What the confirmation field shows: the length message while it is
      shorter than six characters, even when it differs from the new
      password; the mismatch message only for a long enough confirmation
      that differs; nothing otherwise. */
  lemma ConfirmationShows(f: PasswordForm)
    ensures FirstAt(PasswordIssues(f), Confirmation)
      == if |f.confirmarSenha| < 6 then Some(ConfirmRequired)
         else if f.novaSenha != f.confirmarSenha then Some(Mismatch)
         else None
  {
    FirstAtAppend(LeadIssues(f), ConfirmationIssues(f), Confirmation);
    assert FirstAt(LeadIssues(f), Confirmation).None?;
    var c := if |f.confirmarSenha| < 6 then [Issue(Confirmation, ConfirmRequired)] else [];
    var d := if f.novaSenha != f.confirmarSenha then [Issue(Confirmation, Mismatch)] else [];
    FirstAtAppend(c, d, Confirmation);
  }

  /** The body of the password change: the new password under
      `password_hash` and the current one under `senha_atual`. */
  datatype PasswordChange = PasswordChange(passwordHash: string, senhaAtual: string)

  function PasswordBody(f: PasswordForm): (r: PasswordChange)
    requires |PasswordIssues(f)| == 0
    ensures r.passwordHash == f.novaSenha && r.senhaAtual == f.senhaAtual
    ensures |r.passwordHash| >= 6 && r.senhaAtual != ""
    ensures r.passwordHash == f.confirmarSenha
  {
    PasswordChange(f.novaSenha, f.senhaAtual)
  }

  /** The profile page sends the CPF as typed through the mask, with its
      punctuation, to the user update route; the sign-up page sends the
      digits only. The two spellings of one CPF are different strings, so
      if the update route stores what it is sent, a uniqueness check on the
      column does not see them as the same CPF. */
  lemma TwoSpellings(typed: string)
    requires |Digits(typed)| == 11
    ensures Signup.SubmittedCpf(CpfInput(typed)).Some?
    ensures var stored := Signup.SubmittedCpf(CpfInput(typed)).value;
      Digits(CpfInput(typed)) == stored && CpfInput(typed) != stored
  {
    Signup.MaskedCpfSubmitted(typed);
    Cpf.FormatKeepsDigits(typed);
    assert Digits(typed)[..11] == Digits(typed);
  }
}
