# VoteCerto in Dafny

VoteCerto is a voting platform for communities. An ADMIN runs the system. A
GESTOR creates communities, opens voting sessions in them and adds projects
to the sessions. A PARTICIPANTE joins a community with its invite code and
casts one vote per session. Once they have voted, they may read the
session's partial results.

This project models the server side of that platform as pure functions over
an immutable store:

- the request middleware, and the `auth_token` cookie it reads;
- the route handlers for users, communities (create, list, join, own list),
  sessions, projects, votes, results and the vote report;
- the unique indexes those handlers rely on;
- the dialog form state of the admin users page and the gestor projects page.

Each handler is a function `(Store, Auth, now, body) -> Outcome`. `Outcome`
is the JSON answer: a status with its data, or a status with the `error`
message. The client pages that feed these routes are modelled the same way:
their form schemas, the bodies they post, their filters and counters, and
what they show or hide. Lemmas tie each page to the route it calls.

Modules, one per file:

| module | file | models |
|---|---|---|
| `Wrappers`, `Seqs`, `Sorting`, `Text` | wrappers, seqs, sorting, text | `Option`, filters, counts and sums over sequences, a stable sort by key, substrings and ASCII case mapping |
| `Forms` | forms.dfy | a form's validation issues, each at a field path, and the one message a field shows |
| `Domain` | domain.dfy | the tables, the token payload, `Outcome`, the store writes with their unique indexes |
| `Policy` | policy.dfy | which sessions, projects and votes each role may list |
| `Cookies` | cookies.dfy | `getTokenFromRequest`, `createAuthCookie`, `clearAuthCookie` |
| `Middleware` | middleware.dfy | `middleware.ts` |
| `InviteCodes`, `Communities` | codes.dfy, communities.dfy | the community routes and the invite code generator |
| `Sessions`, `Projects`, `Votes`, `Results`, `Users`, `Reports` | one file each | the other routes |
| `Cpf` | cpf.dfy | the CPF display masks and the CPF input formatter |
| `Signup`, `Profile`, `CommunitiesPage`, `SessionsPage`, `ProjectsPage`, `VotesPage`, `UsersPage`, `ResultsPanel` | one file each | the client pages and the results panel |
| `Dialogs` | dialogs.dfy | the form state of a dialog that stays mounted while it is opened on one row after another |
| `Scenarios` | scenarios.dfy | properties of several requests in a row |

Some things are given to the model as parameters rather than computed:

- token verification;
- the `z.string().email()` check;
- bcrypt;
- the random bytes of the invite code;
- the conversion of a date text to an instant;
- the clock.

## Model

| member | source | states |
|---|---|---|
| Forms.FirstAt | app/gestor/perfil/page.tsx:115-116 | a field shows no message exactly when no issue sits at its path, and otherwise the message of an issue at that path |
| Forms.FirstAtIsFirst | app/gestor/perfil/page.tsx:115-116 | the message a field shows is that of the first issue at its path |
| Forms.FirstAtAppend | app/gestor/perfil/page.tsx:115-116 | issues raised later show at a field only when no earlier issue sits there |
| Domain.ParseRole | app/api/usuarios/route.ts:15 | the role enum accepts exactly `ADMIN`, `GESTOR` and `PARTICIPANTE`, and the role it yields is spelt as the text it read |
| Domain.ParseRoleName | app/api/usuarios/route.ts:15 | every role's stored spelling parses back to that role |
| Domain.AuthFailure | app/api/votos/route.ts:22-35 | a missing or unverifiable token is answered with 401 |
| Domain.Nullable | app/api/usuarios/route.ts:56-57 | the "or null" normalisation gives null exactly for an absent or empty string, and otherwise keeps the string |
| Domain.FreshId | app/api/votos/route.ts:147-166 | a new row's id is positive and differs from every id in its table |
| Domain.InsertVote | app/api/votos/route.ts:147-180 | the insert conflicts exactly when the user already voted in the session; otherwise it appends the vote as given, with a fresh id, and keeps one vote per user and session |
| Domain.InsertMembership | app/api/comunidades/ingressar/route.ts:53-87 | the insert conflicts exactly for an existing (user, community) pair; otherwise it appends that pair and keeps pairs unique |
| Domain.InsertCommunity | app/api/comunidades/route.ts:95-132 | the insert conflicts exactly when the name or the code is taken; otherwise it appends the row and keeps both codes and names unique |
| Domain.InsertProject | app/api/projetos/route.ts:144-169 | the insert conflicts exactly when the session already holds the title; otherwise it appends the project with a fresh id and keeps titles unique within each session |
| Domain.InsertUser | app/api/usuarios/route.ts:51-93 | the insert conflicts exactly on a taken email or a taken non-null CPF, reports `cpf` only when the email is free, and keeps both columns unique |
| Cookies.ParsePiece | lib/auth.ts:30 | a trimmed `key=value` piece yields a key and a value, neither containing `=` |
| Cookies.GetToken | lib/auth.ts:26-35 | no header or an empty one gives no token; a token found is non-empty and free of `=` |
| Cookies.GetTokenIsLast | lib/auth.ts:29-34 | the reader's fold returns the value of the last `auth_token` piece, and nothing when that value is missing or empty |
| Cookies.AssignIsLast | lib/auth.ts:29-33 | the `reduce` over pieces agrees on every key with the "last piece wins" reading |
| Cookies.TokenRoundTrip | lib/auth.ts:26-35 | a header whose last `auth_token` piece carries `t` reads as `t`, whatever other cookies surround it |
| Cookies.CreateAuthCookie | lib/auth.ts:36-43 | the cookie begins with `auth_token=<token>` and the fixed attributes, and carries `Secure` exactly in production |
| Cookies.CreateThenRead | lib/auth.ts:36-43 | what a browser sends back from the created cookie reads back as the same token |
| Cookies.ClearThenRead | lib/auth.ts:44-46 | the cleared cookie sends back an empty value, which reads as no token |
| Cookies.Authenticate | lib/auth.ts:18-25 | a handler sees no token, a bad token, or exactly the payload the verifier returned for the token read |
| Middleware.Decide | middleware.ts:13-96 | API paths need a verified token except the auth routes and sign-up; pages without one go to the login page; `/dashboard` goes to the caller's dashboard; an area page passes exactly when the area admits the role |
| Middleware.Route | middleware.ts:3-12 | as shipped: any path with a listed route as prefix passes untouched |
| Middleware.RouteIntended | middleware.ts:3-12 | with `/` matched as the whole path, public routes still pass untouched |
| Middleware.EveryPathIsPublic | middleware.ts:10-12 | as shipped, every path starting with `/` passes untouched, so no token or area check is ever reached |
| Middleware.AdminAreaOpen | middleware.ts:10-12 | as shipped, a visitor without a token reaches `/admin/dashboard` |
| Middleware.AreaNotPublic | middleware.ts:3-6 | once `/` is matched whole, no path under the three areas is public |
| Middleware.AreasGuarded | middleware.ts:43-96 | with `/` matched whole, an area page sends a caller without a valid token to the login page, admits the roles the area allows, and sends everyone else to their own dashboard |
| Middleware.RefusedGoHome | middleware.ts:65-87 | a caller refused by an area lands on their own role's dashboard |
| InviteCodes.HexLower | app/api/comunidades/route.ts:18 | hex encoding spells each byte with two digits |
| InviteCodes.GenerateCode | app/api/comunidades/route.ts:17-19 | a code is eight characters, all from `0-9A-F` |
| InviteCodes.Unhex | app/api/comunidades/route.ts:17-19 | decoding an upper-case hex string yields half as many bytes as characters |
| InviteCodes.UnhexOfHex | app/api/comunidades/route.ts:17-19 | decoding the upper-cased hex spelling gives back the bytes |
| InviteCodes.HexOfUnhex | app/api/comunidades/route.ts:17-19 | every decodable string is the code of the bytes it decodes to |
| InviteCodes.GenerateCodeInjective | app/api/comunidades/route.ts:17-19 | two draws give the same code only when they are the same four bytes |
| InviteCodes.PickCode | app/api/comunidades/route.ts:83-94 | the retry loop stops at the first draw whose code no community holds, and runs on past the draws given exactly when every one of them is taken |
| InviteCodes.PickCodeStops | app/api/comunidades/route.ts:83-94 | with more pairwise different draws than codes taken, the loop stops within the draws |
| InviteCodes.DistinctCodes | app/api/comunidades/route.ts:17-19 | pairwise different draws give pairwise different codes |
| Communities.CommunityBodyIssue | app/api/comunidades/route.ts:13-16 | the body passes exactly when the name holds 3 to 100 characters |
| Communities.PostCommunity | app/api/comunidades/route.ts:59-132 | only a GESTOR with a valid body gets past the checks, which come in the source's order; the new community gets a code no community held and its creator as first member; the unique codes, creators-are-members and membership reference invariants are kept |
| Communities.Listed | app/api/comunidades/route.ts:35-45 | a listed row carries the code exactly when the code is selected |
| Communities.GetCommunities | app/api/comunidades/route.ts:23-55 | anyone gets every community, newest first, with its code unless the caller is an ADMIN |
| Communities.FindByCode | app/api/comunidades/ingressar/route.ts:33-46 | the lookup finds a stored community with exactly that code, and finds none exactly when no community holds the code |
| Communities.FindByCodeUnique | app/api/comunidades/ingressar/route.ts:33-40 | with unique codes, a community's own code finds that community |
| Communities.JoinByCode | app/api/comunidades/ingressar/route.ts:15-87 | any role joins with a valid, known code unless already a member; the answers are 401, 400 (short code or already a member) and 404 (unknown code); the creators-are-members and reference invariants are kept |
| Communities.JoinKeepsInvariants | app/api/comunidades/ingressar/route.ts:53-57 | adding a membership of an existing community keeps the store's membership invariants |
| Communities.MyCommunities | app/api/comunidades/minhas/route.ts:12-74 | an ADMIN gets every community and anyone else the ones they belong to, newest first |
| Communities.CreatorSeesOwn | app/api/comunidades/route.ts:110-115 | because the creator is made a member, a creator's own list holds what they created |
| Communities.JoinThenListed | app/api/comunidades/minhas/route.ts:49-56 | after joining, the community appears in the caller's own list |
| CommunitiesPage.CreateButtonAgrees | app/participante/comunidades/page.tsx:371 | the route refuses the caller as not a GESTOR exactly when the page hides the create button |
| CommunitiesPage.HiddenJoinStillAccepted | app/participante/comunidades/page.tsx:482-488 | the page hides joining from an ADMIN, yet the route lets an ADMIN join |
| CommunitiesPage.CreatorNeverManages | app/participante/comunidades/page.tsx:314 | the only callers who can create a community never see the edit and delete buttons of its card |
| CommunitiesPage.AdminListsAgree | app/participante/comunidades/page.tsx:372 | for an ADMIN, the public listing and the own-communities route hold the same ids |
| CommunitiesPage.JoinCode | app/participante/comunidades/page.tsx:387-389 | the posted code keeps the typed length and passes the route's schema exactly when six or more characters were typed |
| CommunitiesPage.JoinIssues | app/participante/comunidades/page.tsx:42-44 | the page's join schema accepts exactly the codes the route's schema accepts |
| CommunitiesPage.AnyCaseFinds | app/participante/comunidades/page.tsx:389 | any mix of cases of a community's code finds that community |
| CommunitiesPage.LowerSpellingFinds | app/participante/comunidades/page.tsx:389 | the lower-case spelling of a generated code finds its community |
| CommunitiesPage.CreateIssues | app/participante/comunidades/page.tsx:38-41 | the create form accepts exactly names of 3 to 100 characters |
| CommunitiesPage.CreateChecksAgree | app/participante/comunidades/page.tsx:374-378 | page and route accept the same forms with the same message, and an empty description is stored as null |
| CommunitiesPage.PageTotals | app/participante/comunidades/page.tsx:450-470 | the totals count the cards, and their session and member sums are never negative |
| CommunitiesPage.SessionsTotal | app/participante/comunidades/page.tsx:453-455 | over the whole listing, the sessions total equals the number of stored sessions that name a listed community |
| CommunitiesPage.MembersTotal | app/participante/comunidades/page.tsx:470 | over the whole listing, the members total equals the number of memberships |
| Votes.VoteBodyIssues | app/api/votos/route.ts:12-16 | a vote body passes exactly when it names a session and a project |
| Votes.PostVote | app/api/votos/route.ts:80-187 | each failure (401, 403 not a participant, 400 body, 404 session, 400 not live, 403 not a member, 404 project, 409 already voted) happens exactly when the earlier checks pass and its own fails; a success appends the caller's vote and keeps one vote per user and session |
| Votes.GetVotes | app/api/votos/route.ts:20-68 | the listing holds exactly the stored votes that match the query and that the caller's role may see, by ascending id |
| Results.Bump | app/api/votos/resultados/route.ts:49-62 | counting one vote raises its project's count by one, leaves every other count alone, and keeps rows distinct and positive |
| Results.Group | app/api/votos/resultados/route.ts:49-62 | the grouping gives each voted project its number of votes in one positive row, and the rows add up to the number of votes |
| Results.Tenths | app/api/votos/resultados/route.ts:77-84 | the percentage is the share rounded half up to one decimal, and 0 for no votes |
| Results.TenthsBounds | app/api/votos/resultados/route.ts:77-84 | a count within the total gets a percentage of at most 100.0 |
| Results.TitleOf | app/api/votos/resultados/route.ts:80 | an entry's title is never blank: it is the project's own title when that is not empty, and the fallback otherwise |
| Results.SessionProject | app/api/votos/resultados/route.ts:63-76 | the lookup finds a stored project of the session with the voted id, and nothing exactly when the session holds no such project |
| Results.GetResults | app/api/votos/resultados/route.ts:12-94 | only a caller who voted in the session gets its results: one entry per voted project with its exact count and percentage, in non-increasing order, whose counts add up to the total; each entry carries the title, description and author of its project among the session's rows |
| Results.MissingProjectNamed | app/api/votos/resultados/route.ts:75-86 | a voted project with no row in the session is listed as "Projeto não encontrado" with no description or author; a project with a row and a title is listed under that title |
| Results.ResultsFacts | app/api/votos/resultados/route.ts:49-86 | the grouped, sorted and mapped rows meet the response's promise |
| ResultsPanel.MaxVotes | components/resultados-parciais.tsx:94 | the maximum bounds every entry and is reached by one, and is absent only for no entries |
| ResultsPanel.Show | components/resultados-parciais.tsx:72-132 | an error shows its message; a zero total shows the empty state; otherwise one bar per entry in order, with a colour cycling through eight and a plural suffix for all but one vote |
| ResultsPanel.MaxOfSorted | components/resultados-parciais.tsx:94 | the maximum of a non-increasing list is its first entry |
| ResultsPanel.LeaderOfSorted | components/resultados-parciais.tsx:94-110 | in a non-increasing list the first bar leads, and a bar leads exactly when it ties with the first |
| ResultsPanel.LeaderIsFirst | components/resultados-parciais.tsx:94-110 | every successful answer of the results route shows bars, the first one leading |
| Cpf.Mask | lib/utils.ts:12-27 | an absent or empty CPF shows `-`; one without 11 digits shows unchanged; one with 11 shows 14 characters ending in `-**` |
| Cpf.MaskKeepsNineDigits | lib/utils.ts:16-26 | the mask shows exactly the first nine digits, in order |
| Cpf.MaskIgnoresCheckDigits | lib/utils.ts:20-26 | CPFs that differ only in the two check digits mask alike |
| Cpf.MaskIdempotent | lib/utils.ts:12-27 | masking a masked value changes nothing |
| Cpf.MaskIgnoresPunctuation | lib/utils.ts:8-26 | the punctuated and the plain spelling of a CPF mask alike, as the doc comment's example shows |
| Cpf.ReportMask | app/api/relatorios/votos/route.ts:72-74 | the report's mask cuts the raw column at nine characters and appends `**`, with no hyphen |
| Cpf.ReportMaskLacksHyphen | app/api/relatorios/votos/route.ts:72-74 | on an 11-digit column, the report's mask and the display mask differ exactly by the hyphen |
| Cpf.ReportMaskOfFormatted | app/api/relatorios/votos/route.ts:72-74 | a punctuated column is cut at raw positions |
| Cpf.Format | app/auth/cadastro/page.tsx:50-56 | the formatted value has the layout length of at most 11 digits, and at most 14 characters |
| Cpf.FormatKeepsDigits | app/auth/cadastro/page.tsx:50-56 | removing the punctuation gives back the first (up to 11) digits typed |
| Cpf.ArrangeTruncates | app/auth/cadastro/page.tsx:55 | digits past the eleventh never show |
| Cpf.FormatIdempotent | app/auth/cadastro/page.tsx:50-56 | formatting a formatted value changes nothing |
| Cpf.FormatShapes | app/auth/cadastro/page.tsx:50-56 | the punctuation grows with the digit count: none up to 3, then a dot, a second dot, and the hyphen |
| Cpf.FormatMatchesPattern | app/gestor/perfil/page.tsx:41-46 | a formatted value passes the profile's CPF pattern exactly when 11 or more digits were typed |
| Cpf.FormatPassesSignup | app/auth/cadastro/page.tsx:32-35 | a non-empty formatted value passes the sign-up refine exactly when 11 or more digits were typed |
| Reports.VoterName | app/api/relatorios/votos/route.ts:71 | the voter's name, or `Anônimo` when the user or the name is missing or empty |
| Reports.Line | app/api/relatorios/votos/route.ts:69-77 | a vote line keeps the vote's id, date and comment, with the voter's name and the report's CPF mask |
| Reports.ProjectLine | app/api/relatorios/votos/route.ts:65-78 | a project lists exactly its votes, newest first, and its total is their number |
| Reports.ProjectsOf | app/api/relatorios/votos/route.ts:33-35 | a session's projects are exactly the stored projects pointing at it |
| Reports.SessionLine | app/api/relatorios/votos/route.ts:59-81 | a session lists its projects, and its totals are their number and the sum of their vote totals |
| Reports.Report | app/api/relatorios/votos/route.ts:10-84 | any verified caller gets every session (or the one asked for), newest start first |
| Reports.ReportIgnoresRole | app/api/relatorios/votos/route.ts:12-31 | the report is the same for every role |
| Reports.AskedOne | app/api/relatorios/votos/route.ts:27-29 | asking for one id gives at most one session |
| Reports.SessionTotalCountsVotes | app/api/relatorios/votos/route.ts:81 | a session's total is the number of votes cast for its projects |
| Reports.TotalOfLines | app/api/relatorios/votos/route.ts:78-81 | summing the per-project totals counts each vote for the projects once |
| Sessions.TitleIssues | app/api/sessoes/route.ts:13 | a title passes exactly when given as a non-empty string; `null` gets zod's string type message |
| Sessions.DateIssues | app/api/sessoes/route.ts:16-19 | a date passes exactly when given and shaped `YYYY-MM-DDTHH:MM`; left out or `null`, it gets the schema's own "invalid" message |
| Sessions.CommunityIssues | app/api/sessoes/route.ts:15 | the community id passes exactly when given and positive; `null` gets zod's number type message |
| Sessions.ActiveIssues | app/api/sessoes/route.ts:24 | `ativa` passes exactly when it is not `null`: the default replaces only a member left out |
| Sessions.SessionBodyIssues | app/api/sessoes/route.ts:12-25 | the body passes exactly with a title, a positive community id, two well-shaped dates and an `ativa` that is not `null` |
| Sessions.PostSession | app/api/sessoes/route.ts:93-176 | checks in the source's order (401, 500 unconvertible date, 400 body, 403 participant, 404 community, 403 no permission); a success stores the session with the caller as creator and `ativa` true unless it was sent as false |
| Sessions.NullActiveRefused | app/api/sessoes/route.ts:24 | an otherwise valid body with `ativa: null` is refused with 400 |
| Sessions.EndBeforeStartAccepted | app/api/sessoes/route.ts:149-159 | a session ending before it starts is created all the same, and never accepts a vote |
| Sessions.ParticipantOrder | app/api/sessoes/route.ts:116-123 | a PARTICIPANTE hears about a bad body before being refused as not staff |
| Sessions.GetSessions | app/api/sessoes/route.ts:29-81 | the listing holds exactly the stored sessions that match the filters and that the caller may see, by ascending id |
| Sessions.CommunitylessHidden | app/api/sessoes/route.ts:59-65 | a PARTICIPANTE never sees a session without a community |
| Projects.Stored | app/api/projetos/route.ts:144-151 | an optional text is stored exactly when it was sent as a string |
| Projects.OptionalTextIssues | app/api/projetos/route.ts:14-15 | an optional text field passes exactly when it is not `null` |
| Projects.SessionIdIssues | app/api/projetos/route.ts:16 | the session id passes exactly when given; `null` gets zod's number type message |
| Projects.ProjectBodyIssues | app/api/projetos/route.ts:12-17 | the body passes exactly with a non-empty title, a session id, and no `null` in description or author |
| Projects.PostProject | app/api/projetos/route.ts:90-176 | body first, then 401, 403 participant, 404 session, 403 no permission, 409 title taken; a success appends the project as sent |
| Projects.BodyBeforeToken | app/api/projetos/route.ts:92-100 | a bad body gets 400 even without a token |
| Projects.ProjectRuleExtendsSessionRule | app/api/projetos/route.ts:132-143 | the project rule admits the callers the session rule admits in the session's community, plus the session's creator |
| Projects.GetProjects | app/api/projetos/route.ts:20-78 | the listing holds exactly the stored projects that match the filter and that the caller may see, by ascending id |
| Projects.ProjectsFollowSessions | app/api/projetos/route.ts:43-60 | for a non-ADMIN, a project is listed exactly when its session is listed |
| Users.UserBodyIssues | app/api/usuarios/route.ts:12-18 | the body passes exactly with a valid email, a password of 6 or more characters and a known role |
| Users.PostUser | app/api/usuarios/route.ts:46-93 | no token is read; 400 for a bad body, 409 for a taken email (reported first) or CPF; a success stores the hashed password, with an empty name or CPF stored as null, and keeps email and CPF unique |
| Users.AnyoneCreatesAdmin | app/api/usuarios/route.ts:44-72 | a request without any token can create an ADMIN |
| Users.StoresHash | app/api/usuarios/route.ts:50-54 | the stored password is the hash of the one sent |
| Users.GetUsers | app/api/usuarios/route.ts:21-34 | every user is listed once, by ascending id |
| Users.ListingHidesSecrets | app/api/usuarios/route.ts:25-32 | stores that differ only in CPF or password hash list the same |
| Signup.FieldIssues | app/auth/cadastro/page.tsx:26-44 | the field checks pass exactly with a valid email, a 6-character password, a 2-character name and a code for a participant; none of their issues is at the CPF field or carries the CPF message |
| Signup.SignupIssues | app/auth/cadastro/page.tsx:26-47 | the form passes exactly when the field checks pass and the CPF is acceptable; the CPF message is raised exactly for an unacceptable CPF, at the form's root since the refine names no path |
| Signup.CpfRefusedSilently | app/auth/cadastro/page.tsx:32-35 | an unacceptable CPF blocks the submit, yet no displayed field (name, CPF, email, password, code) shows the CPF message, and with the other fields valid none shows anything |
| Signup.SignupIssuesIntended | app/auth/cadastro/page.tsx:26-47 | the corrected schema, with the refine at `path: ['cpf']`, passes exactly the forms the written one passes |
| Signup.CpfRefusalShown | app/auth/cadastro/page.tsx:246-263 | with the refine at the CPF field, that field shows the CPF message exactly when the CPF is unacceptable, and the form passes exactly the same inputs |
| Signup.SubmittedCpf | app/auth/cadastro/page.tsx:95 | an empty CPF is left out; otherwise only its digits are sent |
| Signup.ClientValidIsServerValid | app/auth/cadastro/page.tsx:95-108 | a form the page accepts is a body the user route accepts, with an 11-digit or absent CPF, the name kept, and a code the join route accepts |
| Signup.SignupRole | app/auth/cadastro/page.tsx:98-108 | sign-up creates an account of the chosen kind, never an ADMIN, and fails only on a taken email or CPF |
| Signup.MaskedCpfSubmitted | app/auth/cadastro/page.tsx:95 | a CPF typed through the mask is sent as the digits typed, up to eleven |
| Signup.RedirectUrl | app/auth/cadastro/page.tsx:150-160 | each role goes to its own dashboard, and an unknown role to `/dashboard` |
| Signup.RedirectToOwnDashboard | app/auth/cadastro/page.tsx:150-163 | a new account lands on the dashboard that the middleware's `/dashboard` redirect picks for its role |
| Profile.NameIssues | app/gestor/perfil/page.tsx:37-39 | the name passes exactly when non-empty |
| Profile.CpfIssues | app/gestor/perfil/page.tsx:41-46 | the CPF passes exactly when it matches `ddd.ddd.ddd-dd`, and an empty one gets both messages |
| Profile.CpfInput | app/gestor/perfil/page.tsx:67-73 | what the masked input holds passes the CPF schema exactly when 11 or more digits were typed |
| Profile.PasswordIssues | app/gestor/perfil/page.tsx:52-59 | the change passes exactly with a current password, a 6-character new one and a matching confirmation; every issue sits at one of the three fields, and the mismatch issue sits at the confirmation exactly when the two differ |
| Profile.ConfirmationShows | app/gestor/perfil/page.tsx:55-59 | the confirmation field shows the required message when it is shorter than 6 characters, otherwise the mismatch message exactly when the two passwords differ, and nothing else |
| Profile.PasswordBody | app/gestor/perfil/page.tsx:184-188 | the body sends the typed new password, of 6 or more characters, as the hash field and the typed current one, non-empty |
| Profile.TwoSpellings | app/gestor/perfil/page.tsx:153 | the profile sends a punctuated CPF to the update route while sign-up sends its digits, two different strings for the same CPF |
| SessionsPage.BadgeVersusLive | app/participante/sessoes/page.tsx:249-276 | a session that accepts votes shows "Ativa"; one showing another badge accepts none; an "Ativa" session accepts votes exactly once it has started |
| SessionsPage.VotedSessions | app/participante/sessoes/page.tsx:392-399 | only a PARTICIPANTE has voted sessions |
| SessionsPage.ResultsButtonMatchesGate | app/participante/sessoes/page.tsx:363-370 | a PARTICIPANTE sees "Ver Resultados" exactly on the sessions whose results the route hands them |
| SessionsPage.CreatorSeesControls | app/participante/sessoes/page.tsx:347 | the creator of a session sees its edit and delete buttons |
| SessionsPage.CreateButtonAgrees | app/participante/sessoes/page.tsx:387 | for a valid body, the route refuses the caller as not staff exactly when the page hides the create button |
| SessionsPage.CountSessions | app/participante/sessoes/page.tsx:474-475 | the active and ended counters add up to the total, the ended one counting the sessions switched off |
| SessionsPage.EndedCounterCountsInactive | app/participante/sessoes/page.tsx:474-475 | an active session past its end shows "Encerrada" but is counted as active |
| SessionsPage.FormIssues | app/participante/sessoes/page.tsx:50-57 | the form passes exactly with a title and both dates non-empty |
| SessionsPage.FormBody | app/participante/sessoes/page.tsx:427-434 | an empty description is sent as null |
| SessionsPage.NoCommunityRefused | app/participante/sessoes/page.tsx:53 | the form lets a session without a community through, and the route answers it with 400 |
| SessionsPage.FormPassesSchema | app/participante/sessoes/page.tsx:50-57 | a form with a community and well-shaped dates passes the route's schema |
| VotesPage.Filtered | app/participante/votos/page.tsx:225-234 | the filtered list keeps exactly the votes matching the three filters, in order, and all of them when no filter is set |
| VotesPage.PageFilterIsQuery | app/participante/votos/page.tsx:225-234 | filtering on the page by session and project keeps the votes the route returns for those query parameters |
| VotesPage.Offered | app/participante/votos/page.tsx:137 | the form offers exactly the active sessions |
| VotesPage.UnofferedRefused | app/participante/votos/page.tsx:137 | a session the form does not offer refuses every vote with 400 |
| VotesPage.FormIssues | app/participante/votos/page.tsx:57-61 | the form passes exactly when both ids are at least 1 |
| VotesPage.ChooseSession | app/participante/votos/page.tsx:122-127 | choosing a session resets the project, which the schema then asks for again |
| VotesPage.ChooseProject | app/participante/votos/page.tsx:151 | choosing a project changes only the project |
| VotesPage.PickedInOrder | app/participante/votos/page.tsx:122-127 | a session then a project can be submitted; a project then a session cannot |
| VotesPage.FormBody | app/participante/votos/page.tsx:235-245 | the posted body passes the route's schema and always carries a comment |
| VotesPage.PageVoteKeepsComment | app/participante/votos/page.tsx:241-244 | a vote cast through the page stores the comment typed, empty included |
| VotesPage.WarningMeansRefused | app/participante/votos/page.tsx:104-110 | when the page warns a PARTICIPANTE that they already voted, the route does not record the vote |
| UsersPage.Search | app/admin/usuarios/page.tsx:224-229 | the search keeps exactly the users whose email, name or role contains it regardless of case, in order, and all of them for an empty search |
| UsersPage.SearchIgnoresCase | app/admin/usuarios/page.tsx:224-229 | a search and its upper-cased spelling list the same users |
| UsersPage.RoleNameFindsRole | app/admin/usuarios/page.tsx:228 | searching for a role's name lists every user of that role |
| UsersPage.EmptyNote | app/admin/usuarios/page.tsx:392-396 | a note shows exactly when no user is listed, and "not found" only for a non-empty search over loaded users |
| UsersPage.CountUsers | app/admin/usuarios/page.tsx:231-232 | the total is the number of users and exceeds the two role counters by the number of GESTORs |
| UsersPage.GestorMislabelled | app/admin/usuarios/page.tsx:419-422 | a GESTOR wears the "Participante" badge but is not counted as one |
| UsersPage.CountersOverListing | app/admin/usuarios/page.tsx:231-232 | over the route's listing the counters add up exactly when no user is a GESTOR |
| UsersPage.EditStart | app/admin/usuarios/page.tsx:89-93 | the `defaultValues` computed for a user name that user's email and role and a blank password |
| UsersPage.FormIssues | app/admin/usuarios/page.tsx:62-67 | as written, the dialog passes only with a password of 6 or more characters, and a blank one is refused |
| UsersPage.FormIssuesIntended | app/admin/usuarios/page.tsx:62-67 | the corrected schema also accepts a blank password, and accepts everything the written one does |
| UsersPage.Save | app/admin/usuarios/page.tsx:234-262 | an edit updates the user being edited with the typed email and role, the password only when one was typed, and an empty name as null; a creation without a password is refused with a toast, otherwise it sends the typed values |
| UsersPage.Submit | app/admin/usuarios/page.tsx:62-67 | as written, the schema holds back every blank password, so `handleSalvar` runs only on values that pass it and its "password required" toast is never shown |
| UsersPage.SubmitIntended | app/admin/usuarios/page.tsx:62-67 | under the corrected schema `handleSalvar` runs on every value the written schema passes, and on blank passwords too |
| UsersPage.BlankPasswordBlocked | app/admin/usuarios/page.tsx:62-67 | as written, no dialog with a blank password can be saved, edit or creation |
| UsersPage.GestorEditChangesRole | app/admin/usuarios/page.tsx:62-67 | the role select lacks GESTOR, so a saved edit of a GESTOR always sends another role |
| UsersPage.BlankPasswordKept | app/admin/usuarios/page.tsx:236-250 | with the corrected schema, an edit with a valid email, an offered role and a blank password is saved as an update of that user without a password |
| UsersPage.FirstEditBlank | app/admin/usuarios/page.tsx:87-94 | as written, the dialog opened on a user before anything was typed shows an empty email and the role PARTICIPANTE, and cannot be saved under either schema |
| UsersPage.EditOpensOnUser | app/admin/usuarios/page.tsx:87-94 | with the form reset on opening, the dialog shows the user it is opened on, and saving it untouched updates that user with their own email and role and no password |
| UsersPage.CreateAccepted | app/admin/usuarios/page.tsx:252-262 | a creation passes the route's schema and succeeds exactly for a free email, with the dialog's role (never GESTOR) and name |
| ProjectsPage.Shown | app/gestor/projetos/page.tsx:339-346 | the list keeps exactly the projects whose title or author contains the search regardless of case and that pass the session filter, in order; nothing is dropped when neither is set |
| ProjectsPage.ShownIgnoresCase | app/gestor/projetos/page.tsx:339-346 | a search and its upper-cased spelling keep the same projects |
| ProjectsPage.EmptyNote | app/gestor/projetos/page.tsx:472-476 | a note shows exactly when no project is listed, and "not found" only when some project was filtered out |
| ProjectsPage.TotalVotes | app/gestor/projetos/page.tsx:347 | the total is at least each project's vote count |
| ProjectsPage.TotalIgnoresFilters | app/gestor/projetos/page.tsx:347 | the total never falls short of the votes of the rows shown, and equals them when nothing is filtered |
| ProjectsPage.EditStart | app/gestor/projetos/page.tsx:83-87 | the `defaultValues` computed for a project keep its title and session, and name a blank description exactly for a missing or empty one |
| ProjectsPage.FormIssues | app/gestor/projetos/page.tsx:55-60 | the dialog passes exactly with a title and a session id of at least 1 |
| ProjectsPage.OrNull | app/gestor/projetos/page.tsx:353-354 | the "or null" normalisation sends null exactly for an empty text |
| ProjectsPage.FormBody | app/gestor/projetos/page.tsx:348-362 | as written, the body sends an empty description as null |
| ProjectsPage.EmptyFieldRefused | app/gestor/projetos/page.tsx:358-362 | as written, a dialog with an empty description or author is refused by the route with 400, whoever sends it |
| ProjectsPage.OrAbsent | app/gestor/projetos/page.tsx:353-354 | leaving an empty text out is never null, and stores the same column value as the "or null" normalisation |
| ProjectsPage.FormBodyIntended | app/gestor/projetos/page.tsx:348-362 | the corrected body passes the route's schema whenever the dialog's does |
| ProjectsPage.IntendedBodyStored | app/gestor/projetos/page.tsx:358-362 | a project created through the corrected body stores an empty description or author as null and the rest as typed |
| ProjectsPage.OfferedSessionAccepted | app/gestor/projetos/page.tsx:459-464 | every session the GESTOR's select offers is one the route lets them add a project to |
| ProjectsPage.AdminHiddenButAllowed | app/gestor/projetos/page.tsx:459-464 | the page hides creation from an ADMIN, whom the route lets create in any session |
| ProjectsPage.FirstEditBlank | app/gestor/projetos/page.tsx:81-89 | as written, the dialog opened on a project before anything was typed shows an empty title and no session, and cannot be saved |
| ProjectsPage.EditOpensOnProject | app/gestor/projetos/page.tsx:81-89 | with the form reset on opening, the dialog shows the project it is opened on, and its corrected body sends that project's title, session, description and author |
| Dialogs.Held | app/admin/usuarios/page.tsx:87-94 | the form holds its first-render defaults until something is typed, and afterwards values that were typed |
| Dialogs.OpeningKeeps | app/admin/usuarios/page.tsx:290-298 | opening the dialog on a row, or for a new one, leaves the values it holds unchanged |
| Dialogs.ShowsOpenedRow | app/admin/usuarios/page.tsx:290-305 | with the form reset on opening, a dialog opened on a row shows that row until typed into, however often it is closed; as written it shows what it held before the opening |
| Scenarios.StaffNeverSeeResults | app/api/votos/resultados/route.ts:37-48 | an ADMIN or a GESTOR whose token is current never reads results, since only participants vote |
| Scenarios.VoteKeepsVoters | app/api/votos/route.ts:96-101 | every vote keeps being cast by a stored PARTICIPANTE |
| Scenarios.SignupKeepsVoters | app/api/usuarios/route.ts:51-58 | a sign-up keeps user ids unique and every voter a stored PARTICIPANTE |
| Scenarios.SecondVoteConflicts | app/api/votos/route.ts:174-180 | after a vote, the caller's second vote in the session is never recorded (409 once the other checks pass), and the session's results are open to them |
| Scenarios.JoinThenVote | app/api/comunidades/ingressar/route.ts:53-74 | a PARTICIPANTE refused as a non-member of a live session's community joins by its code and can then vote there |

## Left out

- Token signing and verification (`jose`), bcrypt, `crypto.randomBytes`,
  `new Date(...)` on a date text, `Date.now()` and the email check are
  parameters of the model, not computed.
- Case mapping is ASCII only. JavaScript's `toUpperCase` and `toLowerCase`
  also map accented letters.
- String lengths count characters, not UTF-16 code units.
- The login, logout and `me` routes and the dashboard statistics route are
  not part of this model. The login page and the dashboards only display
  what those routes return.
- The `[id]` routes (update, delete, regenerate a code, per-session and
  per-project listings) are not part of this model. The page findings below
  also affect the update path through them. That route's own rules (a `nome`
  that may not be null, `senha_atual` for a password change) are not
  modelled.
- The hooks are not part of this model. They are thin `fetch` wrappers.
  `useVotos` also sends a `participante_id` that the route ignores.
- Layouts, sidebars, headers and loading spinners are presentational and are
  left out.
- The gestor votes page repeats the participant votes page's filter, so
  `VotesPage.Filtered` covers both.
- Malformed JSON bodies, and JSON values of the wrong type, are left out.
  Those errors end in a 500 or in a zod type message. The session and
  project bodies model each member as left out, `null` or given. The vote,
  user and community bodies model a member as left out or given only, so
  `null` there is not modelled.
- Sessions.GetSessions, Projects.GetProjects, Votes.GetVotes,
  Results.GetResults and Reports.Report take their numeric query parameters
  already read by `parseInt`, as an optional integer. A parameter that does
  not start with a number gives `NaN`, which reaches the database query and
  is not modelled. A parameter such as `7abc` reads as 7, which the
  optional integer covers.
- The forms' resolver (`zodResolver`, from `@hookform/resolvers`) is not part
  of this model. Forms.FirstAt states what it is relied on for: without
  `criteriaMode: 'all'` it keeps the first issue at each path, and a field's
  `<FormMessage />` shows the issue kept at its name. The messages shown
  elsewhere (toasts, the root error) are not modelled.
- Database errors other than the unique constraints are left out. This
  covers the 500 answers and the P2025 "not found" races between a check
  and the insert.
- Concurrency is left out: requests are handled one at a time.
- The order of rows the database returns for equal sort keys is not
  modelled. Sorting is stable on the stored order. Where a query gives no
  order at all, the model uses the stored order. This covers the projects of
  each session in the vote report (Reports.ProjectsOf) and the projects the
  results route looks titles up in.
- Communities.PostCommunity: the retry loop is modelled over a finite list of
  draws. `Looping` stands for a request that is still drawing when the list
  runs out, so the contract does not promise termination.
- Communities.PostCommunity: the 409 and success cases are stated under the
  invariant that every membership points at a stored community. Without it,
  a pre-existing stray membership could collide with the creator's.
- Dialogs.Held: typing is modelled as one event carrying the whole form as
  the user left it. Field-by-field changes are not modelled separately.
- Domain.InsertCommunity and Domain.InsertProject: no file of the repository
  declares the database schema. The unique indexes on `comunidades.nome` and
  on `projetos (sessao_id, titulo)` are assumed from the handlers' 409
  messages, as are the other indexes the model names.
- Domain.InsertUser: when both the email and the CPF collide, the email index
  is the one reported. Which index PostgreSQL reports first is not modelled.
- Results.Tenths: `toFixed(1)` works on binary floating point. The model
  rounds the exact share half up, which can differ from it on an exact tie.
- The communities page's `?? 0` count fallback is left out. Both listing
  routes always include `_count`.
- Scenarios.StaffNeverSeeResults and Scenarios.VoteKeepsVoters follow
  directly from the route contracts, so their bodies are empty.

## Findings

| source | as written | input that shows it | evidently intended | confidence | as-written member | corrected member |
|---|---|---|---|---|---|---|
| middleware.ts:3-12 | `/` is in the public routes and is matched with `startsWith`, so every path is public and no token or role check runs | `GET /admin/dashboard` with no cookie passes untouched | `/` public only as the whole path; the area guards apply elsewhere | high, not executed | Middleware.AdminAreaOpen | Middleware.AreasGuarded |
| app/admin/usuarios/page.tsx:62-67 | the password field is `min(6).optional()` but the dialog fills it with `''`, which is a string shorter than 6 | save an edit whose email and role are valid and whose password is blank | a blank password means "keep the current one", as `handleSalvar` lines 247-249 expect | high, not executed | UsersPage.BlankPasswordBlocked | UsersPage.BlankPasswordKept |
| app/gestor/projetos/page.tsx:351-362 | an empty description or author is sent as `null`, which the route's `z.string().optional()` rejects | create a project with the author field left empty | an empty field is left out of the body and stored as null | high, not executed | ProjectsPage.EmptyFieldRefused | ProjectsPage.IntendedBodyStored |
| app/admin/usuarios/page.tsx:87-94 | `useForm` reads `defaultValues` once, when the always-mounted dialog first renders with no user, and nothing resets it, so opening it on a user does not show that user | load the page and click edit on an ADMIN: the dialog shows an empty email and PARTICIPANTE | the dialog shows the user it is opened on | high, not executed | UsersPage.FirstEditBlank | UsersPage.EditOpensOnUser |
| app/gestor/projetos/page.tsx:81-89 | the same for the project dialog: its `defaultValues` are read once, with no project | load the page and click edit on a project: the dialog shows an empty title and no session | the dialog shows the project it is opened on | high, not executed | ProjectsPage.FirstEditBlank | ProjectsPage.EditOpensOnProject |
| app/auth/cadastro/page.tsx:32-35 | the CPF refine gives no `path`, so its issue sits at the form's root, and no `<FormMessage />` shows the root | sign up with the CPF `123.4` and every other field valid: the submit is blocked and no message appears | the refine carries `path: ['cpf']`, so the CPF field shows its message | high, not executed | Signup.CpfRefusedSilently | Signup.CpfRefusalShown |
