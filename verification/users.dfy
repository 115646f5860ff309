/** The user route: open sign-up with `usuarioSchema`, the conflict
    messages, and the public listing. Email syntax and password hashing are
    oracles. */
module Users {

  import opened Wrappers
  import opened Seqs
  import opened Sorting
  import opened Text
  import opened Domain

  /** The JSON body of POST; a field is `None` when it is absent. */
  datatype UserBody = UserBody(email: Option<string>, password: Option<string>, tipo: Option<string>,
                               nome: Option<string>, cpf: Option<string>)

  const EmailInvalid := "Email inválido"
  const PasswordShort := "Senha deve ter no mínimo 6 caracteres"
  const CpfTaken := "Já existe um usuário com este CPF"
  const EmailTaken := "Já existe um usuário com este email"

  /** The message of `z.enum` for a value outside the three roles. */
  function EnumMessage(received: string): string
  {
    "Invalid enum value. Expected 'ADMIN' | 'GESTOR' | 'PARTICIPANTE', received '" + received + "'"
  }

  /** The issues `usuarioSchema` reports, in field order; `isEmail` is the
      `z.string().email()` check. */
  function UserBodyIssues(b: UserBody, isEmail: string -> bool): (r: seq<string>)
    ensures |r| == 0 <==>
      && b.email.Some? && isEmail(b.email.value)
      && b.password.Some? && |b.password.value| >= 6
      && b.tipo.Some? && ParseRole(b.tipo.value).Some?
  {
    (if b.email.None? then ["Required"] else if !isEmail(b.email.value) then [EmailInvalid] else [])
    + (if b.password.None? then ["Required"] else if |b.password.value| < 6 then [PasswordShort] else [])
    + (if b.tipo.None? then ["Required"] else if ParseRole(b.tipo.value).None? then [EnumMessage(b.tipo.value)] else [])
  }

  /** What POST answers with: every column but the password hash. */
  datatype CreatedUser = CreatedUser(id: int, email: string, tipo: Role, nome: Option<string>, cpf: Option<string>)

  /** POST /api/usuarios: no token is read. `hash` is `bcrypt.hash`. */
  function PostUser(st: Store, b: UserBody, isEmail: string -> bool, hash: string -> string): (r: Outcome<(CreatedUser, Store)>)
    ensures r.Fail? && r.code == 400 <==> |UserBodyIssues(b, isEmail)| > 0
    ensures r == Fail(409, CpfTaken) <==>
      |UserBodyIssues(b, isEmail)| == 0 && !EmailInUse(st, b.email.value) && CpfInUse(st, Nullable(b.cpf))
    ensures r == Fail(409, EmailTaken) <==>
      |UserBodyIssues(b, isEmail)| == 0 && EmailInUse(st, b.email.value)
    ensures r.Done? <==>
      |UserBodyIssues(b, isEmail)| == 0 && !EmailInUse(st, b.email.value) && !CpfInUse(st, Nullable(b.cpf))
    ensures r.Done? ==>
      var (c, st') := r.value;
      && r.code == 201
      && c.email == b.email.value && Some(c.tipo) == ParseRole(b.tipo.value)
      && c.nome == Nullable(b.nome) && c.cpf == Nullable(b.cpf)
      && st' == st.(users := st.users + [User(c.id, c.email, hash(b.password.value), c.tipo, c.nome, c.cpf)])
      && (forall u :: u in st.users ==> u.id != c.id)
    ensures r.Done? && UniqueEmails(st.users) && UniqueCpfs(st.users) ==>
      UniqueEmails(r.value.1.users) && UniqueCpfs(r.value.1.users)
    ensures !r.Looping?
  {
    var issues := UserBodyIssues(b, isEmail);
    if |issues| > 0 then Fail(400, JoinWith(issues, ", "))
    else
      match InsertUser(st, b.email.value, hash(b.password.value), ParseRole(b.tipo.value).value,
                       Nullable(b.nome), Nullable(b.cpf))
      case Conflict(target) => if "cpf" in target then Fail(409, CpfTaken) else Fail(409, EmailTaken)
      case Written(u, st') => Done(201, (CreatedUser(u.id, u.email, u.tipo, u.nome, u.cpf), st'))
  }

  /** Sign-up is open: a request without any token may create an ADMIN. */
  lemma AnyoneCreatesAdmin(st: Store, email: string, password: string, isEmail: string -> bool, hash: string -> string)
    requires isEmail(email) && |password| >= 6 && !EmailInUse(st, email)
    ensures var r := PostUser(st, UserBody(Some(email), Some(password), Some("ADMIN"), None, None), isEmail, hash);
      r.Done? && r.value.0.tipo == Admin
  {
  }

  /** The stored password is the hash of the one sent, never the text. */
  lemma StoresHash(st: Store, b: UserBody, isEmail: string -> bool, hash: string -> string)
    requires PostUser(st, b, isEmail, hash).Done?
    ensures var st' := PostUser(st, b, isEmail, hash).value.1;
      st'.users[|st'.users| - 1].passwordHash == hash(b.password.value)
  {
  }

  /** What GET answers with: no cpf and no password hash. */
  datatype ListedUser = ListedUser(id: int, email: string, tipo: Role, nome: Option<string>)

  function Listing(u: User): ListedUser
  {
    ListedUser(u.id, u.email, u.tipo, u.nome)
  }

  function UserId(u: User): int
  {
    u.id
  }

  /** GET /api/usuarios: no token is read; every user, by ascending id. */
  function GetUsers(st: Store): (r: Outcome<seq<ListedUser>>)
    ensures r.Done? && r.code == 200
    ensures |r.value| == |st.users|
    ensures SortedBy(r.value, (l: ListedUser) => l.id)
    ensures forall l :: l in r.value <==> exists u :: u in st.users && l == Listing(u)
  {
    var sorted := SortBy(st.users, UserId);
    SortedElements(st.users, sorted);
    var r := Map(sorted, Listing);
    MapElements(sorted, Listing);
    assert forall i :: 0 <= i < |r| ==> r[i].id == sorted[i].id;
    Done(200, r)
  }

  /** The listing reveals nothing of the cpf or the password hash: stores
      that differ only there list the same. */
  lemma ListingHidesSecrets(st: Store, st': Store)
    requires Map(st.users, Listing) == Map(st'.users, Listing)
    ensures GetUsers(st) == GetUsers(st')
  {
    SortListings(st.users, st'.users);
  }

  /** Sorting by id commutes with the projection to listed fields. */
  lemma {:induction false} SortListings(us: seq<User>, vs: seq<User>)
    requires Map(us, Listing) == Map(vs, Listing)
    ensures Map(SortBy(us, UserId), Listing) == Map(SortBy(vs, UserId), Listing)
    decreases |us|
  {
    if |us| > 0 {
      assert Listing(us[0]) == Map(us, Listing)[0];
      assert Map(us[1..], Listing) == Map(us, Listing)[1..];
      assert Map(vs[1..], Listing) == Map(vs, Listing)[1..];
      SortListings(us[1..], vs[1..]);
      InsertListings(us[0], vs[0], SortBy(us[1..], UserId), SortBy(vs[1..], UserId));
    }
  }

  lemma {:induction false} InsertListings(x: User, y: User, us: seq<User>, vs: seq<User>)
    requires Listing(x) == Listing(y)
    requires Map(us, Listing) == Map(vs, Listing)
    ensures Map(Sorting.Insert(x, us, UserId), Listing) == Map(Sorting.Insert(y, vs, UserId), Listing)
    decreases |us|
  {
    if |us| == 0 {
      MapCons(x, us, Listing);
      MapCons(y, vs, Listing);
    } else {
      var mu := Map(us, Listing);
      assert Listing(us[0]) == mu[0] == Listing(vs[0]);
      assert us[0].id == vs[0].id && x.id == y.id;
      if x.id <= us[0].id {
        assert Sorting.Insert(x, us, UserId) == [x] + us;
        assert Sorting.Insert(y, vs, UserId) == [y] + vs;
        MapCons(x, us, Listing);
        MapCons(y, vs, Listing);
      } else {
        assert Map(us[1..], Listing) == mu[1..] == Map(vs[1..], Listing);
        InsertListings(x, y, us[1..], vs[1..]);
        var ru := Sorting.Insert(x, us[1..], UserId);
        var rv := Sorting.Insert(y, vs[1..], UserId);
        assert Sorting.Insert(x, us, UserId) == [us[0]] + ru;
        assert Sorting.Insert(y, vs, UserId) == [vs[0]] + rv;
        MapCons(us[0], ru, Listing);
        MapCons(vs[0], rv, Listing);
      }
    }
  }
}
