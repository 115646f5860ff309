/** The session cookie: the ad hoc reader of the `Cookie` request header
    (the `name=value` pairs of section 4.2.1 of RFC 6265, separated by `;`),
    the `Set-Cookie` values that set and clear it, and the step from a
    request to what a handler knows about its caller. */
module Cookies {

  import opened Wrappers
  import opened Text
  import opened Domain

  const AuthName := "auth_token"

  /** One piece of the header after `trim()` and `split('=')`: the text
      before the first `=`, and the text between the first and the second
      `=`, absent when the piece has no `=`. */
  datatype Pair = Pair(key: string, value: Option<string>)

  function ParsePiece(piece: string): (p: Pair)
    ensures '=' !in p.key
    ensures p.value.Some? ==> '=' !in p.value.value
  {
    var parts := Split(Trim(piece), '=');
    Pair(parts[0], if |parts| >= 2 then Some(parts[1]) else None)
  }

  /** The `reduce` of the reader: each piece assigns its key in turn, so a
      later piece overwrites an earlier one, even with an absent value. */
  function Assign(acc: map<string, Option<string>>, ps: seq<string>): map<string, Option<string>>
    decreases |ps|
  {
    if |ps| == 0 then acc
    else
      var p := ParsePiece(ps[0]);
      Assign(acc[p.key := p.value], ps[1..])
  }

  /** The reference reading: the value of the last piece named `name`. */
  function LastValue(ps: seq<string>, name: string): Option<Option<string>>
    decreases |ps|
  {
    if |ps| == 0 then None
    else
      var p := ParsePiece(ps[|ps| - 1]);
      if p.key == name then Some(p.value) else LastValue(ps[..|ps| - 1], name)
  }

  /** `getTokenFromRequest`: `cookies['auth_token'] || null`. */
  function GetToken(header: Option<string>): (r: Option<string>)
    ensures header.None? || header.value == "" ==> r.None?
    ensures r.Some? ==> r.value != "" && '=' !in r.value
  {
    if header.None? || header.value == "" then None
    else
      var ps := Split(header.value, ';');
      var m := Assign(map[], ps);
      AssignIsLast(map[], ps, AuthName);
      if AuthName in m && m[AuthName].Some? && m[AuthName].value != "" then
        LastValueParsed(ps, AuthName);
        Some(m[AuthName].value)
      else None
  }

  /** The reader keeps the last `auth_token` piece: its value, or nothing
      when that piece has no value or an empty one. */
  lemma GetTokenIsLast(h: string)
    requires h != ""
    ensures GetToken(Some(h)) ==
      match LastValue(Split(h, ';'), AuthName)
      case Some(Some(v)) => if v != "" then Some(v) else None
      case _ => None
  {
    AssignIsLast(map[], Split(h, ';'), AuthName);
  }

  lemma {:induction false} AssignSnoc(acc: map<string, Option<string>>, ps: seq<string>, x: string)
    ensures Assign(acc, ps + [x]) == Assign(acc, ps)[ParsePiece(x).key := ParsePiece(x).value]
    decreases |ps|
  {
    if |ps| == 0 {
      assert ps + [x] == [x];
    } else {
      var p := ParsePiece(ps[0]);
      assert (ps + [x])[1..] == ps[1..] + [x];
      AssignSnoc(acc[p.key := p.value], ps[1..], x);
    }
  }

  /** The fold and the reference reading agree on every key. */
  lemma {:induction false} AssignIsLast(acc: map<string, Option<string>>, ps: seq<string>, name: string)
    ensures LastValue(ps, name).Some? ==>
      name in Assign(acc, ps) && Assign(acc, ps)[name] == LastValue(ps, name).value
    ensures LastValue(ps, name).None? ==>
      (name in Assign(acc, ps) <==> name in acc)
      && (name in acc ==> Assign(acc, ps)[name] == acc[name])
    decreases |ps|
  {
    if |ps| > 0 {
      var init := ps[..|ps| - 1];
      var x := ps[|ps| - 1];
      assert ps == init + [x];
      AssignSnoc(acc, init, x);
      AssignIsLast(acc, init, name);
      assert LastValue(ps, name)
        == if ParsePiece(x).key == name then Some(ParsePiece(x).value) else LastValue(init, name);
    }
  }

  lemma {:induction false} LastValueParsed(ps: seq<string>, name: string)
    ensures LastValue(ps, name).Some? && LastValue(ps, name).value.Some? ==>
      '=' !in LastValue(ps, name).value.value
    decreases |ps|
  {
    if |ps| > 0 {
      LastValueParsed(ps[..|ps| - 1], name);
    }
  }

  /** A header whose last `auth_token` piece is `auth_token=t` (after
      optional white space) yields `t`, whatever the other pieces are. */
  lemma TokenRoundTrip(before: seq<string>, lead: string, t: string, after: seq<string>)
    requires t != "" && ';' !in t && '=' !in t && !IsJsSpace(t[|t| - 1])
    requires forall k :: 0 <= k < |lead| ==> IsJsSpace(lead[k]) && lead[k] != ';'
    requires forall k :: 0 <= k < |before| ==> ';' !in before[k]
    requires forall k :: 0 <= k < |after| ==> ';' !in after[k] && ParsePiece(after[k]).key != AuthName
    ensures GetToken(Some(Join(before + [lead + AuthName + "=" + t] + after, ';'))) == Some(t)
  {
    var piece := lead + AuthName + "=" + t;
    var ps := before + [piece] + after;
    PiecesFree(before, lead, t, after);
    var h := Join(ps, ';');
    SplitJoin(ps, ';');
    JoinNonEmpty(ps, |before|);
    LastPiece(before, lead, t, after);
    GetTokenIsLast(h);
  }

  lemma PiecesFree(before: seq<string>, lead: string, t: string, after: seq<string>)
    requires ';' !in t
    requires forall k :: 0 <= k < |lead| ==> lead[k] != ';'
    requires forall k :: 0 <= k < |before| ==> ';' !in before[k]
    requires forall k :: 0 <= k < |after| ==> ';' !in after[k]
    ensures forall k :: 0 <= k < |before + [lead + AuthName + "=" + t] + after| ==>
      ';' !in (before + [lead + AuthName + "=" + t] + after)[k]
  {
    var piece := lead + AuthName + "=" + t;
    var ps := before + [piece] + after;
    assert ';' !in piece by {
      assert forall k :: 0 <= k < |piece| ==> piece[k] != ';' by {
        forall k | 0 <= k < |piece|
          ensures piece[k] != ';'
        {
          if k < |lead| { assert piece[k] == lead[k]; }
          else if k >= |lead| + |AuthName| + 1 { assert piece[k] == t[k - |lead| - |AuthName| - 1]; }
        }
      }
    }
    forall k | 0 <= k < |ps|
      ensures ';' !in ps[k]
    {
      if k < |before| { assert ps[k] == before[k]; }
      else if k == |before| { assert ps[k] == piece; }
      else { assert ps[k] == after[k - |before| - 1]; }
    }
  }

  /** A join with a non-empty piece is non-empty. */
  lemma JoinNonEmpty(ps: seq<string>, i: int)
    requires 0 <= i < |ps| && ps[i] != ""
    ensures Join(ps, ';') != ""
  {
    if |ps| == 1 {
      assert Join(ps, ';') == ps[0];
    } else {
      assert Join(ps, ';') == ps[0] + [';'] + Join(ps[1..], ';');
    }
  }

  lemma LastPiece(before: seq<string>, lead: string, t: string, after: seq<string>)
    requires t != "" && '=' !in t && !IsJsSpace(t[|t| - 1])
    requires forall k :: 0 <= k < |lead| ==> IsJsSpace(lead[k])
    requires forall k :: 0 <= k < |after| ==> ParsePiece(after[k]).key != AuthName
    ensures LastValue(before + [lead + AuthName + "=" + t] + after, AuthName) == Some(Some(t))
  {
    var ps := before + [lead + AuthName + "=" + t];
    PieceOfToken(lead, t);
    LastAfter(ps, after, AuthName);
  }

  /** `lead + 'auth_token=' + t` parses to the pair (`auth_token`, `t`). */
  lemma PieceOfToken(lead: string, t: string)
    requires t != "" && '=' !in t && !IsJsSpace(t[|t| - 1])
    requires forall k :: 0 <= k < |lead| ==> IsJsSpace(lead[k])
    ensures ParsePiece(lead + AuthName + "=" + t) == Pair(AuthName, Some(t))
  {
    TrimPiece(lead, t);
    SplitPiece(t);
  }

  /** Trimming drops the leading white space of a piece. */
  lemma TrimPiece(lead: string, t: string)
    requires t != "" && !IsJsSpace(t[|t| - 1])
    requires forall k :: 0 <= k < |lead| ==> IsJsSpace(lead[k])
    ensures Trim(lead + AuthName + "=" + t) == AuthName + "=" + t
  {
    var body := AuthName + "=" + t;
    assert lead + AuthName + "=" + t == lead + body;
    assert body[0] == 'a' && body[|body| - 1] == t[|t| - 1];
    TrimLeading(lead, body);
  }

  /** Splitting `auth_token=t` at `=` gives the name and `t`. */
  lemma SplitPiece(t: string)
    requires '=' !in t
    ensures Split(AuthName + "=" + t, '=') == [AuthName, t]
  {
    assert Join([AuthName, t], '=') == AuthName + "=" + t;
    assert '=' !in AuthName;
    SplitJoin([AuthName, t], '=');
  }

  /** Pieces with other names after the last match do not change the
      reading. */
  lemma {:induction false} LastAfter(ps: seq<string>, after: seq<string>, name: string)
    requires forall k :: 0 <= k < |after| ==> ParsePiece(after[k]).key != name
    ensures LastValue(ps + after, name) == LastValue(ps, name)
    decreases |after|
  {
    if |after| == 0 {
      assert ps + after == ps;
    } else {
      var init := after[..|after| - 1];
      assert (ps + after)[..|ps + after| - 1] == ps + init;
      assert (ps + after)[|ps + after| - 1] == after[|after| - 1];
      LastAfter(ps, init, name);
    }
  }

  /** The attributes every auth cookie carries after its name-value piece. */
  const CookieAttributes := "; Path=/; HttpOnly; SameSite=Lax"

  /** `createAuthCookie`; the expiry date, seven days ahead, is given as
      its `toUTCString()` text. */
  function CreateAuthCookie(token: string, production: bool, expires: string): (r: string)
    ensures StartsWith(r, AuthName + "=" + token + CookieAttributes)
    ensures production <==> StartsWith(r[|AuthName + "=" + token + CookieAttributes|..], "; Secure")
  {
    var head := AuthName + "=" + token + CookieAttributes;
    var r := head + (if production then "; Secure" else "") + "; Expires=" + expires;
    assert r[|head|..] == (if production then "; Secure" else "") + "; Expires=" + expires;
    assert r[|head|..][2] == (if production then 'S' else 'E');
    r
  }

  /** `clearAuthCookie`: an empty value that expires at once. */
  const ClearAuthCookie := AuthName + "=" + CookieAttributes + "; Max-Age=0"

  /** What a browser sends back from a `Set-Cookie` value: its first
      `;`-separated piece. */
  function SentBack(setCookie: string): string
  {
    Split(setCookie, ';')[0]
  }

  /** The token set by `createAuthCookie` is what the browser sends back,
      and the reader returns it. */
  lemma CreateThenRead(token: string, production: bool, expires: string)
    requires token != "" && ';' !in token && '=' !in token && !IsJsSpace(token[|token| - 1])
    ensures SentBack(CreateAuthCookie(token, production, expires)) == AuthName + "=" + token
    ensures GetToken(Some(SentBack(CreateAuthCookie(token, production, expires)))) == Some(token)
  {
    CreateSentBack(token, production, expires);
    ReadNameValue(token);
  }

  lemma CreateSentBack(token: string, production: bool, expires: string)
    requires ';' !in token
    ensures SentBack(CreateAuthCookie(token, production, expires)) == AuthName + "=" + token
  {
    var first := AuthName + "=" + token;
    var c := CreateAuthCookie(token, production, expires);
    NameValueFree(token);
    assert c[|first|] == ';';
    assert c == first + [';'] + c[|first| + 1..];
    SplitFirst(first, c[|first| + 1..], ';');
  }

  lemma ReadNameValue(token: string)
    requires token != "" && ';' !in token && '=' !in token && !IsJsSpace(token[|token| - 1])
    ensures GetToken(Some(AuthName + "=" + token)) == Some(token)
  {
    var none: seq<string> := [];
    TokenRoundTrip(none, "", token, none);
    assert "" + AuthName + "=" + token == AuthName + "=" + token;
    assert none + [AuthName + "=" + token] + none == [AuthName + "=" + token];
    assert Join([AuthName + "=" + token], ';') == AuthName + "=" + token;
  }

  lemma NameValueFree(token: string)
    requires ';' !in token
    ensures ';' !in AuthName + "=" + token
  {
    var first := AuthName + "=" + token;
    forall k | 0 <= k < |first|
      ensures first[k] != ';'
    {
      if k >= |AuthName| + 1 { assert first[k] == token[k - |AuthName| - 1]; }
    }
  }

  /** The cleared cookie sends back an empty value, which reads as no
      token. */
  lemma ClearThenRead()
    ensures SentBack(ClearAuthCookie) == AuthName + "="
    ensures GetToken(Some(SentBack(ClearAuthCookie))) == None
  {
    var v := AuthName + "=";
    NameValueFree("");
    assert v + "" == v;
    assert ClearAuthCookie == v + [';'] + ClearAuthCookie[|v| + 1..];
    SplitFirst(v, ClearAuthCookie[|v| + 1..], ';');
    EmptyValue();
  }

  lemma EmptyValue()
    ensures GetToken(Some(AuthName + "=")) == None
  {
    var v := AuthName + "=";
    EmptyPiece();
    assert LastValue([v], AuthName) == Some(Some(""));
    GetTokenIsLast(v);
  }

  /** The cleared cookie is one piece, naming the cookie with an empty
      value. */
  lemma EmptyPiece()
    ensures Split(AuthName + "=", ';') == [AuthName + "="]
    ensures ParsePiece(AuthName + "=") == Pair(AuthName, Some(""))
  {
    assert AuthName + "=" == AuthName + "=" + "";
    SplitOnePiece("");
    EmptyPieceParsed();
  }

  lemma EmptyPieceParsed()
    ensures ParsePiece(AuthName + "=") == Pair(AuthName, Some(""))
  {
    var v := AuthName + "=";
    assert v == AuthName + "=" + "";
    SplitPiece("");
    assert Trim(v) == v by {
      assert v[0] == 'a' && v[|v| - 1] == '=';
    }
  }

  /** A piece with no `;` splits into itself. */
  lemma SplitOnePiece(token: string)
    requires ';' !in token
    ensures Split(AuthName + "=" + token, ';') == [AuthName + "=" + token]
  {
    var v := AuthName + "=" + token;
    NameValueFree(token);
    assert Join([v], ';') == v;
    SplitJoin([v], ';');
  }

  /** What a handler learns about its caller from the request: the token
      verification (`verifyToken`, a JWT check) is the oracle `verify`. */
  function Authenticate(header: Option<string>, verify: string -> Option<Payload>): (a: Auth)
    ensures a.NoToken? <==> GetToken(header).None?
    ensures a.BadToken? <==> GetToken(header).Some? && verify(GetToken(header).value).None?
    ensures a.Valid? ==> GetToken(header).Some? && verify(GetToken(header).value) == Some(a.payload)
  {
    match GetToken(header)
    case None => NoToken
    case Some(t) =>
      match verify(t)
      case None => BadToken
      case Some(p) => Valid(p)
  }
}
