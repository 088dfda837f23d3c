/**
 * The role guard (APIRoleGuard and the RoleGuard dependency).
 *
 * `allowed_roles` is fixed when the guard is built, so the guard is a value and
 * validation is a function of the Authorization header (None when the request
 * has none) and of the time `now` at which the token is decoded. Validation
 * either lets the request through, raises an HTTPException, or, for a non-empty
 * header without a space, fails on `token.split(" ")[1]` with an uncaught
 * IndexError (which the web framework answers with status 500).
 */
module Guard {
  import opened Common
  import opened Jwt

  /** fastapi.HTTPException. */
  datatype HttpException = HttpException(statusCode: int, detail: string, headers: map<string, string>)

  datatype Outcome = Allowed | Rejected(exception: HttpException) | IndexError

  const Challenge: map<string, string> := map["WWW-Authenticate" := "Bearer"]

  const HeaderMissing := HttpException(401, "Unautherized", Challenge)
  const TokenExpired := HttpException(401, "Token has expired", Challenge)
  const TokenInvalid := HttpException(401, "Invalid token", Challenge)
  const Forbidden := HttpException(403, "Forbidden: Insufficient permissions", Challenge)

  // ---------------------------------------------------------------------------
  // str.split(" ")

  function IndexOfSpace(s: string): (i: nat)
    requires ' ' in s
    ensures i < |s| && s[i] == ' ' && ' ' !in s[..i]
  {
    if s[0] == ' ' then 0 else 1 + IndexOfSpace(s[1..])
  }

  /** Python's s.split(" "): the fields between single spaces, empty fields included. */
  function Split(s: string): (fields: seq<string>)
    ensures |fields| >= 1
    ensures forall i :: 0 <= i < |fields| ==> ' ' !in fields[i]
    decreases |s|
  {
    if ' ' !in s then [s]
    else
      var i := IndexOfSpace(s);
      [s[..i]] + Split(s[i + 1..])
  }

  /** " ".join(fields). */
  function Join(fields: seq<string>): string
    requires |fields| >= 1
  {
    if |fields| == 1 then fields[0] else fields[0] + " " + Join(fields[1..])
  }

  /** Splitting loses nothing: joining the fields again gives the header back. */
  lemma {:induction false} JoinSplit(s: string)
    ensures Join(Split(s)) == s
    decreases |s|
  {
    if ' ' in s {
      var i := IndexOfSpace(s);
      JoinSplit(s[i + 1..]);
      assert Split(s)[1..] == Split(s[i + 1..]);
      assert s == s[..i] + " " + s[i + 1..];
    }
  }

  lemma {:induction false} IndexOfSpaceAfterWord(word: string, rest: string)
    requires ' ' !in word
    ensures IndexOfSpace(word + " " + rest) == |word|
  {
    if word != [] {
      assert (word + " " + rest)[1..] == word[1..] + " " + rest;
      IndexOfSpaceAfterWord(word[1..], rest);
    }
  }

  /** The first field of `word + " " + rest` is `word` when `word` has no space. */
  lemma SplitAfterWord(word: string, rest: string)
    requires ' ' !in word
    ensures Split(word + " " + rest) == [word] + Split(rest)
  {
    var s := word + " " + rest;
    IndexOfSpaceAfterWord(word, rest);
    var i := IndexOfSpace(s);
    assert s[..i] == word;
    assert s[i + 1..] == rest;
  }

  // ---------------------------------------------------------------------------
  // The guard

  /** `not role or role not in allowed_roles`, negated: a decoded `role` claim passes when
      it is present, non-empty and listed. No role passes an empty list, and an absent or
      empty role passes no list. */
  function RoleAdmitted(role: Option<string>, allowedRoles: seq<string>): (admitted: bool)
    ensures admitted ==> role.Some? && role.value in allowedRoles
    ensures role == None || role == Some("") || allowedRoles == [] ==> !admitted
    ensures role.Some? && role.value != "" && role.value in allowedRoles ==> admitted
  {
    role.Some? && role.value != "" && role.value in allowedRoles
  }

  datatype APIRoleGuard = APIRoleGuard(allowedRoles: seq<string>)
  {
    /** decode_jwt: the payload, or the 401 for an expired or an invalid token. */
    function DecodeJwt(token: string, now: int): (r: Result<Claims, HttpException>)
      ensures Decode(token, now).Decoded? <==> r.Ok?
      ensures r.Ok? ==> Parse(token) == Some(r.value) && r.value.exp > now
      ensures Decode(token, now) == ExpiredSignature ==> r == Err(HttpException(401, "Token has expired", Challenge))
      ensures Decode(token, now) == InvalidToken ==> r == Err(HttpException(401, "Invalid token", Challenge))
    {
      match Decode(token, now)
      case Decoded(payload) => Ok(payload)
      case ExpiredSignature => Err(TokenExpired)
      case InvalidToken => Err(TokenInvalid)
    }

    /** validate: header check, then decoding of the header's second field, then the
        whitelist test on `role`. */
    function Validate(header: Option<string>, now: int): (r: Outcome)
      ensures header == None || header == Some("") ==>
                r == Rejected(HttpException(401, "Unautherized", map["WWW-Authenticate" := "Bearer"]))
      ensures r.Rejected? ==> r.exception.headers == map["WWW-Authenticate" := "Bearer"]
      ensures r.Rejected? ==> r.exception.statusCode == 401 || r.exception.statusCode == 403
      ensures r.IndexError? <==> header.Some? && header.value != "" && ' ' !in header.value
      ensures r.Allowed? ==>
                && header.Some?
                && |Split(header.value)| >= 2
                && Decode(Split(header.value)[1], now).Decoded?
                && Decode(Split(header.value)[1], now).claims.role.Some?
                && Decode(Split(header.value)[1], now).claims.role.value != ""
                && Decode(Split(header.value)[1], now).claims.role.value in allowedRoles
      ensures header.Some? && |Split(header.value)| >= 2 ==>
                r == match Decode(Split(header.value)[1], now)
                     case ExpiredSignature => Rejected(HttpException(401, "Token has expired", Challenge))
                     case InvalidToken => Rejected(HttpException(401, "Invalid token", Challenge))
                     case Decoded(c) =>
                       if c.role.Some? && c.role.value != "" && c.role.value in allowedRoles then Allowed
                       else Rejected(HttpException(403, "Forbidden: Insufficient permissions", Challenge))
    {
      if header.None? || header.value == "" then Rejected(HeaderMissing)
      else
        var fields := Split(header.value);
        if |fields| < 2 then IndexError
        else
          match DecodeJwt(fields[1], now)
          case Err(e) => Rejected(e)
          case Ok(payload) =>
            if !RoleAdmitted(payload.role, allowedRoles) then Rejected(Forbidden) else Allowed
    }
  }

  /** RoleGuard(allowed_roles): the route dependency, which builds a guard for the
      request and validates it. */
  function RoleGuard(allowedRoles: seq<string>, header: Option<string>, now: int): (r: Outcome)
    ensures header == None || header == Some("") ==> r.Rejected? && r.exception.statusCode == 401
    ensures r.Allowed? ==> exists role :: role in allowedRoles && role != ""
  {
    APIRoleGuard(allowedRoles).Validate(header, now)
  }

  /** A header of two words: the second is the token, and the first is never looked at. */
  lemma ValidateTwoWords(g: APIRoleGuard, scheme: string, token: string, now: int)
    requires ' ' !in scheme && ' ' !in token
    ensures g.Validate(Some(scheme + " " + token), now) ==
            match Decode(token, now)
            case ExpiredSignature => Rejected(HttpException(401, "Token has expired", Challenge))
            case InvalidToken => Rejected(HttpException(401, "Invalid token", Challenge))
            case Decoded(c) =>
              if c.role.Some? && c.role.value != "" && c.role.value in g.allowedRoles then Allowed
              else Rejected(HttpException(403, "Forbidden: Insufficient permissions", Challenge))
  {
    SplitAfterWord(scheme, token);
    assert Split(scheme + " " + token) == [scheme, token];
  }

  /** Two headers with the same second field get the same outcome. */
  lemma SameSecondField(g: APIRoleGuard, h1: string, h2: string, now: int)
    requires |Split(h1)| >= 2 && |Split(h2)| >= 2 && Split(h1)[1] == Split(h2)[1]
    ensures g.Validate(Some(h1), now) == g.Validate(Some(h2), now)
  {
  }

  /** Only the second field is decoded: fields after the token change nothing. */
  lemma TrailingFieldsIgnored(g: APIRoleGuard, scheme: string, token: string, extra: string, now: int)
    requires ' ' !in scheme && ' ' !in token
    ensures g.Validate(Some(scheme + " " + token + " " + extra), now) == g.Validate(Some(scheme + " " + token), now)
  {
    var long := scheme + " " + token + " " + extra;
    assert long == scheme + " " + (token + " " + extra);
    SplitAfterWord(scheme, token + " " + extra);
    SplitAfterWord(token, extra);
    SplitAfterWord(scheme, token);
    assert Split(token) == [token];
    SameSecondField(g, long, scheme + " " + token, now);
  }

  /** The scheme word is not checked: any two space-free words in front of the same token
      give the same outcome. */
  lemma SchemeNotChecked(g: APIRoleGuard, scheme1: string, scheme2: string, token: string, now: int)
    requires ' ' !in scheme1 && ' ' !in scheme2 && ' ' !in token
    ensures g.Validate(Some(scheme1 + " " + token), now) == g.Validate(Some(scheme2 + " " + token), now)
  {
    ValidateTwoWords(g, scheme1, token, now);
    ValidateTwoWords(g, scheme2, token, now);
  }

  /** For a token the system issued, sent as "Bearer <token>": expired from `exp` on, and
      before that allowed exactly when its role is a non-empty member of the list. */
  lemma ValidateIssuedToken(g: APIRoleGuard, c: Claims, now: int)
    ensures c.exp <= now ==>
              g.Validate(Some("Bearer " + Encode(c)), now) == Rejected(HttpException(401, "Token has expired", Challenge))
    ensures c.exp > now ==>
              (g.Validate(Some("Bearer " + Encode(c)), now) == Allowed
               <==> c.role.Some? && c.role.value != "" && c.role.value in g.allowedRoles)
    ensures c.exp > now && !(c.role.Some? && c.role.value != "" && c.role.value in g.allowedRoles) ==>
              g.Validate(Some("Bearer " + Encode(c)), now) == Rejected(HttpException(403, "Forbidden: Insufficient permissions", Challenge))
  {
    assert "Bearer " + Encode(c) == "Bearer" + " " + Encode(c);
    ValidateTwoWords(g, "Bearer", Encode(c), now);
    DecodeEncode(c, now);
  }

  /** A whitelist, not a hierarchy: an admin token does not pass a user-only route, and a
      user token does not pass an admin-only route. */
  lemma NoRoleImpliesAnother(sub: string, exp: int, now: int)
    requires exp > now
    ensures APIRoleGuard(["admin"]).Validate(Some("Bearer " + Encode(Claims(Some(sub), Some("user"), exp))), now)
            == Rejected(HttpException(403, "Forbidden: Insufficient permissions", Challenge))
    ensures APIRoleGuard(["user"]).Validate(Some("Bearer " + Encode(Claims(Some(sub), Some("admin"), exp))), now)
            == Rejected(HttpException(403, "Forbidden: Insufficient permissions", Challenge))
    ensures APIRoleGuard(["admin", "user"]).Validate(Some("Bearer " + Encode(Claims(Some(sub), Some("user"), exp))), now)
            == Allowed
  {
    ValidateIssuedToken(APIRoleGuard(["admin"]), Claims(Some(sub), Some("user"), exp), now);
    ValidateIssuedToken(APIRoleGuard(["user"]), Claims(Some(sub), Some("admin"), exp), now);
    ValidateIssuedToken(APIRoleGuard(["admin", "user"]), Claims(Some(sub), Some("user"), exp), now);
  }
}
