/**
 * Account registration and password change (UserService) over the session's user
 * table. The salt bcrypt would draw for a new digest is a parameter.
 */
module Users {
  import opened Common
  import opened Crypto
  import opened Models
  import opened Database
  import Auth

  const DefaultRole := "user"
  const UserExists := "User already exists."

  /** `user_data.role if user_data.role else "user"`: None and "" both give "user". */
  function RoleOrDefault(role: Option<string>): (r: string)
    ensures r != ""
    ensures role.Some? && role.value != "" ==> r == role.value
    ensures role == None || role == Some("") ==> r == "user"
  {
    if role.Some? && role.value != "" then role.value else DefaultRole
  }

  class UserService {
    const db: Session

    constructor (db: Session)
      ensures this.db == db
    {
      this.db := db;
    }

    /** create_user: refuses an existing username; otherwise stores exactly one new user with
        the digest of the password (never the password) and the role or "user". */
    method CreateUser(username: string, password: string, role: Option<string>, salt: string)
      returns (r: Result<User, string>)
      requires db.Valid()
      modifies db
      ensures db.Valid()
      ensures username in old(db.users) ==> r == Err("User already exists.") && db.users == old(db.users)
      ensures username !in old(db.users) ==>
                && r == Ok(User(username, Hash(password, salt), RoleOrDefault(role)))
                && db.users == old(db.users)[username := r.value]
      ensures db.students == old(db.students) && db.subjects == old(db.subjects)
      ensures db.scores == old(db.scores) && db.nextScoreId == old(db.nextScoreId)
    {
      var userRole := RoleOrDefault(role);
      if username in db.users {
        return Err(UserExists);
      }
      var user := User(username, Hash(password, salt), userRole);
      db.users := db.users[username := user];
      r := Ok(user);
    }

    /** change_password: re-authenticates with the old password, then replaces only that
        user's digest by the digest of the new password. The role and the other users stay. */
    method ChangePassword(username: string, oldPassword: string, newPassword: string, salt: string)
      returns (r: Result<User, string>)
      requires db.Valid()
      modifies db
      ensures db.Valid()
      ensures Auth.AuthenticateUser(old(db.users), username, oldPassword).Err? ==>
                r == Err("Invalid username or password") && db.users == old(db.users)
      ensures Auth.AuthenticateUser(old(db.users), username, oldPassword).Ok? ==>
                && r == Ok(old(db.users)[username].(password := Hash(newPassword, salt)))
                && db.users == old(db.users)[username := r.value]
                && r.value.role == old(db.users)[username].role
      ensures db.students == old(db.students) && db.subjects == old(db.subjects)
      ensures db.scores == old(db.scores) && db.nextScoreId == old(db.nextScoreId)
    {
      var authenticated := Auth.AuthenticateUser(db.users, username, oldPassword);
      if authenticated.Err? {
        return Err(authenticated.error);
      }
      var user := authenticated.value;
      var updated := user.(password := Hash(newPassword, salt));
      db.users := db.users[user.username := updated];
      r := Ok(updated);
    }
  }

  /** change_password as written: `self.user_repository.change_password` does not exist, so
      after a successful authentication the call raises AttributeError and nothing is
      stored. Returns the error raised and the user table afterwards. */
  function ChangePasswordAsWritten(users: map<string, User>, username: string, oldPassword: string, newPassword: string, salt: string)
    : (r: (Result<User, string>, map<string, User>))
    ensures r.1 == users
    ensures r.0.Err?
    ensures Auth.AuthenticateUser(users, username, oldPassword).Ok? ==>
              r.0.error == "'UserRepository' object has no attribute 'change_password'"
  {
    match Auth.AuthenticateUser(users, username, oldPassword)
    case Err(e) => (Err(e), users)
    case Ok(_) => (Err("'UserRepository' object has no attribute 'change_password'"), users)
  }

  /** After the intended change, the new password signs in and the old one no longer does;
      as written, the old password still signs in. */
  lemma ChangePasswordEffect(users: map<string, User>, username: string, oldPassword: string, newPassword: string, salt: string, now: int)
    requires UsersKeyed(users)
    requires Auth.AuthenticateUser(users, username, oldPassword).Ok?
    requires newPassword != oldPassword
    ensures var changed := users[username := users[username].(password := Hash(newPassword, salt))];
            && Auth.SignIn(changed, username, newPassword, now).Ok?
            && Auth.SignIn(changed, username, oldPassword, now) == Err("Invalid username or password")
    ensures Auth.SignIn(ChangePasswordAsWritten(users, username, oldPassword, newPassword, salt).1, username, oldPassword, now).Ok?
  {
  }
}
