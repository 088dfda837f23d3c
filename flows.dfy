/**
 * Sign-in followed by a guarded request: the access token sign_in hands out,
 * sent back as "Bearer <token>", is what the role guard judges.
 */
module Flows {
  import opened Common
  import opened Crypto
  import opened Jwt
  import opened Models
  import opened Auth
  import opened Guard

  /** For 15 minutes after sign-in the access token passes exactly the guards that list the
      user's stored role; from then on every guard answers 401 "Token has expired". */
  lemma SignedInRequest(users: map<string, User>, username: string, password: string, salt: string,
                        g: APIRoleGuard, signedInAt: int, requestAt: int)
    requires UsersKeyed(users)
    requires username in users && users[username].password == Hash(password, salt)
    ensures SignIn(users, username, password, signedInAt).Ok?
    ensures var header := Some("Bearer " + SignIn(users, username, password, signedInAt).value.accessToken);
            var role := users[username].role;
            && (signedInAt <= requestAt < signedInAt + 900 ==>
                  (g.Validate(header, requestAt) == Allowed <==> role != "" && role in g.allowedRoles))
            && (signedInAt <= requestAt < signedInAt + 900 && !(role != "" && role in g.allowedRoles) ==>
                  g.Validate(header, requestAt) == Rejected(HttpException(403, "Forbidden: Insufficient permissions", Challenge)))
            && (requestAt >= signedInAt + 900 ==>
                  g.Validate(header, requestAt) == Rejected(HttpException(401, "Token has expired", Challenge)))
  {
    var u := users[username];
    var c := Claims(Some(u.username), Some(u.role), signedInAt + AccessTokenTtl);
    assert SignIn(users, username, password, signedInAt).value.accessToken == Encode(c);
    ValidateIssuedToken(g, c, requestAt);
  }

  /** The second user story: a "user" account that signs in is refused an admin-only route
      with 403 and admitted to a route open to users, while its token lasts. */
  lemma UserAccountOnAdminRoute(salt: string, signedInAt: int, requestAt: int)
    requires signedInAt <= requestAt < signedInAt + 900
    ensures var users := map["alice" := User("alice", Hash("pw123", salt), "user")];
            var header := Some("Bearer " + SignIn(users, "alice", "pw123", signedInAt).value.accessToken);
            && SignIn(users, "alice", "pw123", signedInAt).Ok?
            && APIRoleGuard(["admin"]).Validate(header, requestAt)
               == Rejected(HttpException(403, "Forbidden: Insufficient permissions", Challenge))
            && APIRoleGuard(["admin", "user"]).Validate(header, requestAt) == Allowed
  {
    var users := map["alice" := User("alice", Hash("pw123", salt), "user")];
    SignedInRequest(users, "alice", "pw123", salt, APIRoleGuard(["admin"]), signedInAt, requestAt);
    SignedInRequest(users, "alice", "pw123", salt, APIRoleGuard(["admin", "user"]), signedInAt, requestAt);
  }
}
