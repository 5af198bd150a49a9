/** Shared vocabulary of the model: how a request body looks once the JSON
    parser has read it, the errors the views raise and the HTTP status each
    one is rendered with, the requester the authentication layer resolves,
    the whitespace trimming applied by text fields, and the foreign
    collaborators (password hasher, token service, e-mail validator) that
    the views call but whose code is not part of this model. */
module Common {

  datatype Option<T> = None | Some(value: T)

  /** Primary keys are auto-incremented integers. */
  type UserId = nat

  /** A value of a request body as the parser hands it to a serializer. */
  datatype Value = Str(s: string) | Num(n: int)

  /** A request body (`request.data`): field name to value. */
  type Body = map<string, Value>

  /** Python truthiness of a body value, as tested by `if refresh_token:`. */
  predicate Truthy(v: Value) {
    match v
    case Str(s) => s != ""
    case Num(n) => n != 0
  }

  /** The requester the authentication layer resolved for a request. */
  datatype Requester = Anonymous | Authenticated(uid: UserId)

  /** The errors the views raise or answer with. */
  datatype Error =
    | NotAuthenticated
    | AuthenticationFailed(detail: string)
    | PermissionDenied(detail: string)
    | NotFound(detail: string)
    | ValidationError(fields: set<string>)
    | BadRequest(detail: string)
    | ServerError

  /** The HTTP status each error is answered with. */
  function ErrorStatus(e: Error): (code: int)
    ensures 400 <= code <= 500
    ensures code == 401 <==> e.NotAuthenticated? || e.AuthenticationFailed?
    ensures code == 400 <==> e.ValidationError? || e.BadRequest?
  {
    match e
    case NotAuthenticated => 401
    case AuthenticationFailed(_) => 401
    case PermissionDenied(_) => 403
    case NotFound(_) => 404
    case ValidationError(_) => 400
    case BadRequest(_) => 400
    case ServerError => 500
  }

  /** An intermediate step that either yields a value or raises an error. */
  datatype Result<T> = Ok(value: T) | Err(error: Error)

  /** What a view answers: a success status with its body, or an error. */
  datatype Outcome<T> = Done(status: int, body: T) | Failed(error: Error)

  /** The characters Python's `str.strip()` removes: those for which
      `str.isspace()` holds, the ASCII controls from tab to carriage return
      and from the file to the unit separator, and the Unicode spaces and
      line and paragraph separators. */
  predicate IsSpace(c: char) {
    || c == ' '
    || '\t' <= c <= '\r'
    || '\U{001C}' <= c <= '\U{001F}'
    || c == '\U{0085}' || c == '\U{00A0}' || c == '\U{1680}'
    || '\U{2000}' <= c <= '\U{200A}'
    || c == '\U{2028}' || c == '\U{2029}' || c == '\U{202F}' || c == '\U{205F}' || c == '\U{3000}'
  }

  /** Drops leading whitespace. */
  function TrimStart(s: string): string {
    if s != [] && IsSpace(s[0]) then TrimStart(s[1..]) else s
  }

  /** Drops trailing whitespace. */
  function TrimEnd(s: string): string {
    if s != [] && IsSpace(s[|s| - 1]) then TrimEnd(s[..|s| - 1]) else s
  }

  /** `str.strip()`, which every text field applies (trim_whitespace). */
  function Strip(s: string): string {
    TrimEnd(TrimStart(s))
  }

  /** TrimStart keeps a suffix of its input that does not start with a
      space, and everything it drops is a space. */
  lemma {:induction false} TrimStartSpec(s: string)
    ensures |TrimStart(s)| <= |s| && TrimStart(s) == s[|s| - |TrimStart(s)|..]
    ensures TrimStart(s) == [] || !IsSpace(TrimStart(s)[0])
    ensures forall k :: 0 <= k < |s| - |TrimStart(s)| ==> IsSpace(s[k])
  {
    if s != [] && IsSpace(s[0]) {
      var t := s[1..];
      TrimStartSpec(t);
      var n := |s| - |TrimStart(s)|;
      assert TrimStart(s) == TrimStart(t);
      assert t[n - 1..] == s[n..];
      forall k | 0 < k < n
        ensures IsSpace(s[k])
      {
        assert s[k] == t[k - 1];
      }
    }
  }

  /** TrimEnd keeps a prefix of its input that does not end with a space,
      and everything it drops is a space. */
  lemma {:induction false} TrimEndSpec(s: string)
    ensures |TrimEnd(s)| <= |s| && TrimEnd(s) == s[..|TrimEnd(s)|]
    ensures TrimEnd(s) == [] || !IsSpace(TrimEnd(s)[|TrimEnd(s)| - 1])
    ensures forall k :: |TrimEnd(s)| <= k < |s| ==> IsSpace(s[k])
  {
    if s != [] && IsSpace(s[|s| - 1]) {
      var t := s[..|s| - 1];
      TrimEndSpec(t);
      var n := |TrimEnd(s)|;
      assert TrimEnd(s) == TrimEnd(t);
      assert t[..n] == s[..n];
      forall k | n <= k < |s| - 1
        ensures IsSpace(s[k])
      {
        assert s[k] == t[k];
      }
    }
  }

  /** Strip keeps one contiguous stretch of its input, neither starting
      nor ending with a space, and drops only spaces around it. */
  lemma StripSpec(s: string)
    ensures var r := Strip(s); var i := |s| - |TrimStart(s)|;
      && 0 <= i && i + |r| <= |s| && r == s[i..i + |r|]
      && (r == [] || (!IsSpace(r[0]) && !IsSpace(r[|r| - 1])))
      && (forall k :: 0 <= k < i ==> IsSpace(s[k]))
      && (forall k :: i + |r| <= k < |s| ==> IsSpace(s[k]))
  {
    var t := TrimStart(s);
    var r := TrimEnd(t);
    var i := |s| - |t|;
    TrimStartSpec(s);
    TrimEndSpec(t);
    SuffixPrefix(s, t, r, i);
    if r != [] {
      assert r[0] == t[0];
    }
  }

  /** A prefix `r` of the suffix `t` of `s` from `i` is the slice of `s`
      from `i`, and what `t` holds past `r` is what `s` holds there. */
  lemma SuffixPrefix(s: string, t: string, r: string, i: nat)
    requires i <= |s| && t == s[i..] && |r| <= |t| && r == t[..|r|]
    requires forall k :: |r| <= k < |t| ==> IsSpace(t[k])
    ensures i + |r| <= |s| && r == s[i..i + |r|]
    ensures forall k :: i + |r| <= k < |s| ==> IsSpace(s[k])
  {
    forall k | i + |r| <= k < |s|
      ensures IsSpace(s[k])
    {
      assert s[k] == t[k - i];
    }
  }

  /** A text field (CharField, EmailField or TextField, with allow_blank
      false and trim_whitespace true): the trimmed text, or None when the
      value is not text, trims to nothing, exceeds the length limit or
      holds a null character (which every text field prohibits). */
  function CleanText(v: Value, maxLength: Option<nat>): (r: Option<string>)
    ensures r.Some? ==> v.Str? && r.value == Strip(v.s)
    ensures r.Some? ==> r.value != [] && (maxLength.Some? ==> |r.value| <= maxLength.value)
    ensures r.Some? ==> '\0' !in r.value
    ensures (v.Str? && Strip(v.s) != [] && '\0' !in Strip(v.s)
      && (maxLength.Some? ==> |Strip(v.s)| <= maxLength.value)) ==> r.Some?
  {
    match v
    case Num(_) => None
    case Str(s) =>
      var t := Strip(s);
      if t == [] then None
      else if maxLength.Some? && |t| > maxLength.value then None
      else if '\0' in t then None
      else Some(t)
  }

  /** The text a body supplies for `key`, untrimmed (empty when none). */
  function TextIn(body: Body, key: string): string {
    if key in body && body[key].Str? then body[key].s else []
  }

  /** The number a body supplies for `key` (zero when none). */
  function NumberIn(body: Body, key: string): int {
    if key in body && body[key].Num? then body[key].n else 0
  }

  /** The trimmed text a body supplies for `key`: what a text field stores
      for that key once it has validated. */
  function Supplied(body: Body, key: string): string {
    Strip(TextIn(body, key))
  }

  /** The pair `RefreshToken.for_user` issues. */
  datatype TokenPair = TokenPair(refresh: string, access: string)

  /** Library code the views call, passed in as functions: the e-mail
      format validator, `make_password`, `check_password(plain, stored)`,
      `RefreshToken.for_user` and whether `RefreshToken(t)` accepts t. */
  datatype Collaborators = Collaborators(
    isEmail: string -> bool,
    makePassword: string -> string,
    checkPassword: (string, string) -> bool,
    issueTokens: UserId -> TokenPair,
    tokenValid: string -> bool)

  /** The one property of the hasher the model relies on: a password
      checks against its own hash. */
  ghost predicate HasherSound(env: Collaborators) {
    forall p :: env.checkPassword(p, env.makePassword(p))
  }
}
