/** The server's bearer-token middleware (`authenticateToken`) and the role
    gate every protected route opens with. Signing and verifying tokens is a
    foreign library; it is a function parameter here. */
module Auth {
  import opened Lists

  /** The payload the server signs at login: the user's id and user_type. */
  datatype Claims = Claims(id: nat, userType: string)

  /** What the middleware does with a request. */
  datatype AuthResult =
    | Unauthorized               // 401: no token in the header
    | Forbidden                  // 403: the token did not verify
    | Authenticated(user: Claims) // `req.user` is set and the handler runs

  const Employee: string := "employee"
  const Student: string := "student"

  /** The two account kinds the client offers (`'employee' | 'student'`). */
  datatype Role = EmployeeRole | StudentRole

  function RoleName(role: Role): (name: string)
    ensures name == Employee <==> role == EmployeeRole
    ensures name == Student <==> role == StudentRole
  {
    match role
    case EmployeeRole => Employee
    case StudentRole => Student
  }

  /** `s.split(sep)` for a one-character separator: the pieces between separators,
      empty pieces included. */
  function Split(s: string, sep: char): (parts: seq<string>)
    ensures |parts| >= 1
    ensures forall k :: 0 <= k < |parts| ==> sep !in parts[k]
  {
    if s == [] then [""]
    else
      var rest := Split(s[1..], sep);
      if s[0] == sep then [""] + rest
      else [[s[0]] + rest[0]] + rest[1..]
  }

  /** `parts.join(sep)` */
  function JoinWith(parts: seq<string>, sep: char): string
    requires |parts| >= 1
  {
    if |parts| == 1 then parts[0] else parts[0] + [sep] + JoinWith(parts[1..], sep)
  }

  /** Splitting loses nothing: joining the pieces gives the header back. */
  lemma {:induction false} JoinSplit(s: string, sep: char)
    ensures JoinWith(Split(s, sep), sep) == s
  {
    if s != [] {
      JoinSplit(s[1..], sep);
      var rest := Split(s[1..], sep);
      if s[0] != sep {
        if |rest| == 1 {
          assert s == [s[0]] + rest[0];
        } else {
          assert rest[1..][1..] == rest[2..];
          assert JoinWith(rest, sep) == rest[0] + [sep] + JoinWith(rest[1..], sep);
          assert s == [s[0]] + s[1..];
        }
      } else {
        assert s == [sep] + s[1..];
      }
    }
  }

  /** Splitting a join of separator-free pieces gives the pieces back. */
  lemma {:induction false} SplitJoin(parts: seq<string>, sep: char)
    requires |parts| >= 1
    requires forall k :: 0 <= k < |parts| ==> sep !in parts[k]
    ensures Split(JoinWith(parts, sep), sep) == parts
  {
    if |parts| == 1 {
      SplitWord(parts[0], [], sep);
      assert parts[0] + [] == parts[0];
      assert parts[0] + "" == parts[0];
    } else {
      SplitJoin(parts[1..], sep);
      var t := [sep] + JoinWith(parts[1..], sep);
      SplitWord(parts[0], t, sep);
      assert parts[0] + [sep] + JoinWith(parts[1..], sep) == parts[0] + t;
      assert t[1..] == JoinWith(parts[1..], sep);
      assert Split(t, sep) == [""] + parts[1..];
      assert parts[0] + "" == parts[0];
      assert parts == [parts[0]] + parts[1..];
    }
  }

  /** A separator-free word glues onto the first piece of whatever follows it. */
  lemma {:induction false} SplitWord(w: string, t: string, sep: char)
    requires sep !in w
    requires t == [] || t[0] == sep
    ensures Split(w + t, sep) == [w + Split(t, sep)[0]] + Split(t, sep)[1..]
  {
    if w == [] {
      assert w + t == t;
    } else {
      SplitWord(w[1..], t, sep);
      assert (w + t)[1..] == w[1..] + t;
      assert (w + t)[0] == w[0];
      assert [w[0]] + (w[1..] + Split(t, sep)[0]) == w + Split(t, sep)[0];
    }
  }

  /** `authHeader && authHeader.split(' ')[1]`, with JavaScript's `null` and
      `undefined` as None. An empty header short-circuits to the empty token. */
  function BearerToken(header: Option<string>): (token: Option<string>)
    ensures header.None? ==> token.None?
    ensures token.Some? ==> ' ' !in token.value
  {
    match header
    case None => None
    case Some(h) =>
      if h == "" then Some("")
      else
        var parts := Split(h, ' ');
        if |parts| < 2 then None else Some(parts[1])
  }

  /** The header a client builds, `Bearer ${token}`, yields that token. */
  lemma BearerRoundTrip(scheme: string, token: string)
    requires ' ' !in scheme && ' ' !in token
    ensures BearerToken(Some(scheme + " " + token)) == Some(token)
  {
    var parts := [scheme, token];
    assert JoinWith(parts[1..], ' ') == token;
    assert JoinWith(parts, ' ') == scheme + " " + token;
    SplitJoin(parts, ' ');
  }

  /** A non-empty header with no space in it carries no token: the request gets 401. */
  lemma OneWordHeader(h: string)
    requires h != "" && ' ' !in h
    ensures BearerToken(Some(h)) == None
  {
    SplitJoin([h], ' ');
  }

  /** `authenticateToken`: 401 without a token, 403 when `verify` rejects it,
      otherwise the verified claims become the request's user. */
  function Authenticate(header: Option<string>, verify: string -> Option<Claims>): (r: AuthResult)
    ensures r == Unauthorized <==> BearerToken(header).None?
    ensures r == Forbidden <==> BearerToken(header).Some? && verify(BearerToken(header).value).None?
    ensures r.Authenticated? ==> Some(r.user) == verify(BearerToken(header).value)
  {
    match BearerToken(header)
    case None => Unauthorized
    case Some(token) =>
      match verify(token)
      case None => Forbidden
      case Some(user) => Authenticated(user)
  }

  /** `if (req.user.userType !== role) return 403`: the gate is open only for
      exactly the route's role. */
  predicate HasRole(caller: Claims, role: string)
  {
    caller.userType == role
  }
}
