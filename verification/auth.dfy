/** The bearer-token middleware (internal/auth/middleware.go): the
    Authorization header must read `Bearer <user>`, the user name is put into
    the request context under the key "user", and handlers read it back. The
    request context is a map from keys to values; only string values matter. */
module Auth {
  import opened Text

  const UserContextKey: string := "user"
  const Bearer: string := "Bearer"
  const StatusUnauthorized: int := 401

  /** The response bodies as `http.Error` writes them: the message, then a
      newline. */
  const MissingHeaderBody: string := "{\"error\": \"Missing authorization header\"}\n"
  const BadFormatBody: string := "{\"error\": \"Invalid authorization header format\"}\n"
  const BadUserBody: string := "{\"error\": \"Invalid username\"}\n"

  datatype ContextValue = CString(s: string) | COther

  type Context = map<string, ContextValue>

  /** What the middleware does with a request: answer it with an error, or
      pass it on, once, with the extended context. */
  datatype Verdict = Rejected(status: int, body: string) | Next(ctx: Context)

  /** `Middleware`, applied to the request's Authorization header and
      context. */
  function Middleware(header: string, ctx: Context): (v: Verdict)
    ensures v.Rejected? ==> v.status == StatusUnauthorized
    ensures header == "" <==> v == Rejected(StatusUnauthorized, MissingHeaderBody)
    ensures v.Next? ==> v.ctx.Keys == ctx.Keys + {UserContextKey}
    ensures v.Next? ==> forall k :: k in ctx && k != UserContextKey ==> v.ctx[k] == ctx[k]
  {
    if header == "" then Rejected(StatusUnauthorized, MissingHeaderBody)
    else
      var parts := Split(header, ' ');
      if |parts| != 2 || parts[0] != Bearer then Rejected(StatusUnauthorized, BadFormatBody)
      else if parts[1] == "" then Rejected(StatusUnauthorized, BadUserBody)
      else Next(ctx[UserContextKey := CString(parts[1])])
  }

  /** `GetUserFromContext`: the Go code panics unless a string user is
      present, so that is required. */
  function GetUserFromContext(ctx: Context): (user: string)
    requires UserContextKey in ctx && ctx[UserContextKey].CString?
    ensures ctx[UserContextKey] == CString(user)
  {
    ctx[UserContextKey].s
  }

  /** A well-formed header is accepted and the handler sees exactly the user
      it names. */
  lemma {:induction false} BearerAccepted(user: string, ctx: Context)
    requires user != "" && ' ' !in user
    ensures Middleware(Bearer + " " + user, ctx) == Next(ctx[UserContextKey := CString(user)])
    ensures GetUserFromContext(Middleware(Bearer + " " + user, ctx).ctx) == user
  {
    assert Bearer + " " + user == Bearer + [' '] + user;
    SplitAtFirst(Bearer, user, ' ');
    SplitNoSeparator(user, ' ');
  }

  /** The header is accepted exactly when it is "Bearer", one space, and a
      non-empty user name without spaces; the user is everything after the
      space. */
  lemma {:induction false} AcceptedIff(header: string, ctx: Context)
    ensures Middleware(header, ctx).Next?
        <==> |header| > |Bearer| + 1 && header[..|Bearer| + 1] == Bearer + " " && ' ' !in header[|Bearer| + 1..]
    ensures Middleware(header, ctx).Next? ==>
      Middleware(header, ctx).ctx == ctx[UserContextKey := CString(header[|Bearer| + 1..])]
  {
    var n := |Bearer| + 1;
    if |header| > n && header[..n] == Bearer + " " && ' ' !in header[n..] {
      assert header == Bearer + " " + header[n..];
      BearerAccepted(header[n..], ctx);
    }
    if Middleware(header, ctx).Next? {
      var parts := Split(header, ' ');
      JoinSplit(header, ' ');
      assert header == parts[0] + [' '] + parts[1];
      assert header[n..] == parts[1];
    }
  }

  /** A header of two space-separated words is judged on them alone: the
      scheme must be "Bearer" and the user must be non-empty. */
  lemma {:induction false} TwoWordVerdict(scheme: string, user: string, ctx: Context)
    requires ' ' !in scheme && ' ' !in user
    ensures Middleware(scheme + [' '] + user, ctx)
         == if scheme != Bearer then Rejected(StatusUnauthorized, BadFormatBody)
            else if user == "" then Rejected(StatusUnauthorized, BadUserBody)
            else Next(ctx[UserContextKey := CString(user)])
  {
    assert |scheme + [' '] + user| > 0;
    SplitAtFirst(scheme, user, ' ');
    SplitNoSeparator(user, ' ');
  }

  /** A header of another scheme is rejected as malformed. */
  lemma InvalidFormatRejected(ctx: Context)
    ensures Middleware("Invalid format", ctx) == Rejected(StatusUnauthorized, BadFormatBody)
  {
    assert "Invalid format" == "Invalid" + [' '] + "format";
    TwoWordVerdict("Invalid", "format", ctx);
  }

  /** "Bearer " names the empty user and is rejected. */
  lemma EmptyUserRejected(ctx: Context)
    ensures Middleware("Bearer ", ctx) == Rejected(StatusUnauthorized, BadUserBody)
  {
    assert "Bearer " == Bearer + [' '] + "";
    TwoWordVerdict(Bearer, "", ctx);
  }
}
