# StudentScoreManager core, modelled in Dafny

StudentScoreManager is a FastAPI backend that keeps students, subjects and scores in a
relational database and protects its routes with JWT bearer tokens. This project models:

- the authentication service: access and refresh tokens, password checks, sign-in and
  refresh (`Auth`);
- the role guard that admits a request by the `role` claim of its bearer token (`Guard`);
- user registration and password change (`Users`);
- the student, score and subject services (`Students`, `Scores`, `Subjects`);
- the score repository's queries and writes (`ScoreRepo`).

It proves properties of each.

Layout, one module per file:

| module | file | models |
|---|---|---|
| `Common` | common.dfy | `Option` and `Result` |
| `Crypto` | crypto.dfy | bcrypt hashing as a symbolic digest. The salt is a parameter. |
| `Jwt` | jwt.dfy | the token format. Claims are encoded as a reversible text without spaces. Decoding reports a token as expired when `exp <= now`, as PyJWT does. |
| `Models` | models.dfy | the four ORM records and their key constraints |
| `Database` | database.dfy | the session, a class holding every table |
| `Auth` | auth.dfy | `AuthService`, as functions of the user table and the time |
| `Guard` | guard.dfy | `APIRoleGuard` and `RoleGuard`, as a value and functions of the header and the time |
| `Users` | users.dfy | `UserService`, a class that changes the session |
| `Students` | students.dfy | `StudentService` |
| `ScoreRepo` | score_repository.dfy | `ScoreRepository`. Its queries are functions over the score rows. Add, delete and update are methods. |
| `Scores` | scores.dfy | `ScoreService` |
| `Subjects` | subjects.dfy | `SubjectService`, including the score cascade on removal |
| `Flows` | flows.dfy | sign-in followed by a guarded request |

Conventions:

- Time is an integer number of seconds.
- A date is its day number.
- A timedelta argument is `Option<int>`. None and 0 play the part of Python's falsy delta.
- The score table is a sequence of rows, because its key is composite and `get_by_id`
  takes the first match. The other tables are maps from primary key to record.
- Every service operation is one atomic step on the session.

Where the code departs from its evident intent, the model follows the code:

- **Refresh-token lifetime.** `create_refresh_token` defaults to 30 minutes, but `sign_in`
  passes 30 days explicitly.
- **Sign-in failures.** An unknown username and a wrong password give the same message.
- **Authorization header without a space.** It is not answered with 401. It fails with an
  IndexError, which FastAPI reports as status 500.
- **Malformed refresh token.** As written, a malformed refresh token, one without `sub` and
  one for a deleted user all end in AttributeError (`Auth.RefreshAccessTokenAsWritten`).
  `Auth.RefreshAccessToken` states the intended outcomes instead. See Findings.
- **Scheme word.** A Bearer guard would check the scheme word, but line 44 of
  src/guard/guard_service.py never looks at the first word of the header
  (`Guard.SchemeNotChecked`).

## Model

| member | source | states |
|---|---|---|
| Crypto.Hash | src/user/user_service.py:27 | The digest of a password verifies that password and no other. |
| Crypto.Verify | src/auth/auth_service.py:16-17 | A password verifies against a digest exactly when the digest was computed from that password. |
| Crypto.SaltedHashesDiffer | src/auth/auth_service.py:16-17 | Two hashes of one password under different salts differ, and both verify. |
| Jwt.Encode | src/auth/auth_service.py:26 | An encoded token is non-empty and contains no space, so it survives `split(" ")`. |
| Jwt.Decode | src/guard/guard_service.py:20 | jwt.decode: invalid exactly when the token does not parse, expired exactly when it parses with exp <= now, and otherwise the parsed claims with exp > now. The refresh decode at src/auth/auth_service.py:60 is the same function. |
| Jwt.ParseEncode | src/guard/guard_service.py:20 | Decoding recovers exactly the claims that were encoded. |
| Jwt.DecodeEncode | src/guard/guard_service.py:18-33 | An issued token decodes to its claims while `exp > now`, and is an expired signature once `exp <= now`. |
| Auth.Lifetime | src/auth/auth_service.py:21-24 | `if expires_delta:`: a non-zero delta is used as given, and None or a zero delta falls back to the default. A non-zero default never gives a zero lifetime. |
| Auth.CreateAccessToken | src/auth/auth_service.py:19-27 | The token carries the caller's sub and role. Its exp is now + delta, or now + 900 s when the delta is absent or zero. |
| Auth.CreateRefreshToken | src/auth/auth_service.py:29-37 | As for access tokens, but with a default of now + 1800 s. |
| Auth.AuthenticateUser | src/auth/auth_service.py:39-43 | Succeeds exactly when the username is stored and the password verifies, and returns the stored user. An unknown user and a wrong password give the same message. |
| Auth.SignIn | src/auth/auth_service.py:45-56 | Succeeds exactly when authentication does. The access token holds sub = username, role = the stored role and exp = now + 900. The refresh token holds only sub, with exp = now + 30 days. The type is "bearer". Failure gives "Invalid username or password". |
| Auth.RefreshAccessToken | src/auth/auth_service.py:58-76 | An expired token gives "Refresh token has expired". A malformed token, or one without sub, gives "Invalid refresh token". A subject that is no longer stored gives "User not found". Otherwise the result is a 15-minute access token with that user's current role. |
| Auth.RefreshAccessTokenAsWritten | src/auth/auth_service.py:58-76 | As written: succeeds exactly when the intended handler does, and then returns the same 15-minute access token with the current role. It says "Refresh token has expired" on expiry. Every other failure is an AttributeError. |
| Auth.RefreshAsWrittenLosesUserNotFound | src/auth/auth_service.py:64-70 | For a live refresh token of a deleted user, the intended handler says "User not found", but the code as written raises AttributeError. |
| Auth.SignInCarriesStoredRole | src/auth/auth_service.py:50-52 | Signing in with the right password yields an access token with the stored role and a 15-minute expiry. |
| Auth.RefreshReflectsCurrentRole | src/auth/auth_service.py:64-76 | A refresh before the refresh token expires issues an access token with the role stored at refresh time, not the role at sign-in. |
| Auth.SignInRejectsWrongPassword | src/auth/auth_service.py:41-42 | A wrong password fails sign-in with "Invalid username or password". |
| Guard.IndexOfSpace | src/guard/guard_service.py:44 | Finds the position of the first space. |
| Guard.Split | src/guard/guard_service.py:44 | `split(" ")` yields at least one field, and no field contains a space. |
| Guard.JoinSplit | src/guard/guard_service.py:44 | Joining the fields with single spaces gives the header back. |
| Guard.IndexOfSpaceAfterWord | src/guard/guard_service.py:44 | In `word + " " + rest`, where the word has no space, the first space is just after the word. |
| Guard.SplitAfterWord | src/guard/guard_service.py:44 | Splitting `word + " " + rest` gives the word followed by the fields of rest. |
| Guard.RoleAdmitted | src/guard/guard_service.py:47 | A role passes only when it is present and listed. An absent or empty role passes no list, and no role passes an empty list. A present, non-empty, listed role passes. |
| Guard.APIRoleGuard.DecodeJwt | src/guard/guard_service.py:18-33 | Returns the claims of a valid token. An expired token gives 401 "Token has expired", and any other bad token gives 401 "Invalid token". Both carry the WWW-Authenticate: Bearer header. |
| Guard.APIRoleGuard.Validate | src/guard/guard_service.py:35-52 | A missing or empty header gives 401 "Unautherized". A non-empty header without a space gives an IndexError, and only that header does. For every header with two or more fields, the outcome is fixed by the second field alone: 401 "Token has expired", 401 "Invalid token", admitted when the decoded role is present, non-empty and listed, and 403 otherwise. Every rejection carries the Bearer challenge. |
| Guard.TrailingFieldsIgnored | src/guard/guard_service.py:44 | Fields after the token do not change the outcome. |
| Guard.RoleGuard | src/guard/guard_service.py:54-58 | The dependency rejects a request with no header with 401. It admits nothing when the list has no non-empty role. |
| Guard.ValidateTwoWords | src/guard/guard_service.py:44-52 | For a two-word header, the outcome is decided by the second word alone: expired, invalid, forbidden (403), or admitted. |
| Guard.SchemeNotChecked | src/guard/guard_service.py:44 | The first word of the header is never inspected. Any scheme word gives the same outcome. |
| Guard.ValidateIssuedToken | src/guard/guard_service.py:35-52 | "Bearer " plus an issued token is 401 expired from exp on. Before that it is admitted exactly when its role is a non-empty member of the list, and otherwise gets 403. |
| Guard.NoRoleImpliesAnother | src/guard/guard_service.py:47 | Roles are a whitelist, not a hierarchy. A user token is refused an admin-only route, an admin token is refused a user-only route, and a user token passes ["admin", "user"]. |
| Users.RoleOrDefault | src/user/user_service.py:22 | The role given when it is non-empty. None and "" both give "user". |
| Users.UserService.CreateUser | src/user/user_service.py:19-29 | An existing username gives "User already exists." and no change. Otherwise exactly one user is stored, with the digest of the password and the role or "user". Other tables stay as they were. |
| Users.UserService.ChangePassword | src/user/user_service.py:31-36 | The old password is checked again, and failure gives "Invalid username or password" with no change. Otherwise only that user's digest is replaced, with the role and the other users unchanged. |
| Users.ChangePasswordAsWritten | src/user/user_service.py:35 | As written: the call always fails and the user table is unchanged. After a successful authentication the error is the missing `change_password` attribute. |
| Users.ChangePasswordEffect | src/user/user_service.py:31-36 | After the intended change, the new password signs in and the old one does not. As written, the old password still signs in. |
| Students.ApplyStudentUpdate | src/student/student_service.py:38-43 | Each field whose argument is not None is replaced, and the others are kept. An empty string is still applied. student_id is kept. |
| Students.StudentService.AddStudent | src/student/student_service.py:13-24 | An existing id gives "Student already exists" and no change. Otherwise exactly the given record is stored under its id. |
| Students.StudentService.RemoveStudent | src/student/student_service.py:26-31 | A missing id gives None and no change. Otherwise only that entry is removed, and it is returned. |
| Students.StudentService.UpdateStudent | src/student/student_service.py:33-46 | A missing id gives None and no change. Otherwise the given fields are assigned in place and only that entry changes. |
| Students.StudentUpdateIdempotent | src/student/student_service.py:38-43 | An update with no fields changes nothing. Repeating an update changes nothing more. |
| ScoreRepo.Filter | src/score/score_repository.py:14 | A `WHERE` clause keeps exactly the rows that satisfy it. |
| ScoreRepo.FilterCounts | src/score/score_repository.py:14 | Every row that satisfies the clause keeps its multiplicity, and every other row is dropped. |
| ScoreRepo.FilterKeepsIdsDistinct | src/score/score_repository.py:41-43 | Filtering keeps score_ids distinct. |
| ScoreRepo.Insert | src/score/score_repository.py:15 | Inserting into a list sorted by date keeps it sorted, and adds exactly that row. |
| ScoreRepo.SortByDate | src/score/score_repository.py:15 | `ORDER BY date` yields a sorted permutation of the rows. |
| ScoreRepo.GetByStudent | src/score/score_repository.py:13-17 | Returns exactly the rows of that student, with their multiplicities, ordered by date in ascending or descending order. A student_id of None (SQL NULL) selects nothing. |
| ScoreRepo.SubjectIds | src/score/score_repository.py:27 | Each subject_id present appears once, and no other id appears. |
| ScoreRepo.MaxOf | src/score/score_repository.py:27 | `MAX(score)` bounds every score of the subject and equals one of them. |
| ScoreRepo.GetMaxScoreSubjects | src/score/score_repository.py:25-29 | One row per distinct subject_id present and none for any other. Each row's maximum bounds every score of that subject and equals one of them. |
| ScoreRepo.FindById | src/score/score_repository.py:38-39 | The index of the first row with that score_id, or the length of the table when there is none. |
| ScoreRepo.GetById | src/score/score_repository.py:37-39 | None exactly when no row has the id. Otherwise the first such row. |
| ScoreRepo.GetByIdUnique | src/score/score_repository.py:37-39 | With distinct score_ids, the row found is the only row with that id. |
| ScoreRepo.ScoreRepository.Add | src/score/score_repository.py:31-35 | The row is appended under the next auto-increment score_id, which no row had, and the counter advances. |
| ScoreRepo.ScoreRepository.Delete | src/score/score_repository.py:41-43 | Exactly the rows with that score's id are removed. |
| ScoreRepo.ScoreRepository.Update | src/score/score_repository.py:45-48 | Commits the changed row in its place, with its score_id kept. |
| Scores.StudentIdOf | src/score/score_service.py:14 | `dict.get("student_id")`: the value when the key is present, None otherwise. |
| Scores.OverwriteScore | src/score/score_service.py:43-46 | Helper: the record after the four assignments, with its score_id kept. Its contract gives the same record as its body; what it means is stated by Scores.ScoreService.UpdateScore and Scores.UpdatedRowFound. |
| Scores.ScoreService.GetStudentScores | src/score/score_service.py:13-15 | Exactly the rows of the requested student, each as often as stored, sorted by date. A request without "student_id" gives nothing. |
| Scores.ScoreService.AddScore | src/score/score_service.py:24-31 | Stores a row with exactly the given student_id, subject_id, score and date, under a fresh score_id. Other tables stay as they were. |
| Scores.ScoreService.RemoveScore | src/score/score_service.py:33-37 | Returns the row with that id, or None. Only that row is deleted, and nothing changes when there is none. |
| Scores.ScoreService.UpdateScore | src/score/score_service.py:39-47 | A missing id gives None and no change. Otherwise score, date, student_id and subject_id are all overwritten in place, with score_id and the other rows kept. |
| Scores.UpdatedRowFound | src/score/score_service.py:43-47 | After an update, the row is found again under the same id with the new fields, and every other row is untouched. |
| Subjects.NameTaken | src/subject/subject_model.py:9 | In a table that meets the unique constraint on name, the name is taken exactly when storing a subject with that id and name would break the constraint. |
| Subjects.NameClash | src/subject/subject_model.py:9 | Another subject holding the name is equivalent to the updated table breaking the unique constraint. |
| Subjects.ApplySubjectUpdate | src/subject/subject_service.py:25-26 | The name is replaced only by a non-empty name, and the amount only by a non-zero amount. subject_id is kept. |
| Subjects.UpdateCannotClear | src/subject/subject_service.py:25-26 | An update with "" and 0 changes nothing. A non-zero amount can never be set to 0, and a non-empty name can never be emptied. |
| Subjects.SubjectService.GetSubjects | src/subject/subject_service.py:31-32 | Every stored subject, and nothing else. |
| Subjects.SubjectService.AddSubject | src/subject/subject_service.py:10-15 | Stores exactly the given subject, unless the id is taken (primary key) or another subject holds the name (unique constraint). In those two cases nothing changes. |
| Subjects.SubjectService.RemoveSubject | src/subject/subject_service.py:17-21 | A missing id gives NotFound. Otherwise the subject is deleted and returned, and the cascade deletes exactly the scores of that subject. |
| Subjects.SubjectService.Update | src/subject/subject_service.py:23-29 | A missing id gives NotFound. A resulting name held by another subject is refused with no change. Otherwise only that subject changes, by the truthy-argument rule. |
| Flows.SignedInRequest | src/guard/guard_service.py:35-52 | For 15 minutes after sign-in, the access token passes exactly the guards whose list holds the user's stored role, and other guards answer 403. From then on every guard answers 401 "Token has expired". |
| Flows.UserAccountOnAdminRoute | src/auth/auth_service.py:45-56 | A "user" account that signs in is refused an admin-only route with 403 and admitted to ["admin", "user"]. |

## Left out

- **Tokens.** The JWT signature, the secret and the algorithm are not modelled, so a forged
  token is not distinguished from an issued one. The token text is a reversible encoding of
  the claims that stands in for `jwt.encode`. Tokens without an `exp` claim are not modelled.
- **Password hashing.** bcrypt's cost factor and hash collisions are not modelled. The salt
  is a parameter.
- Crypto.Hash, Crypto.Verify: Verify compares whole passwords. bcrypt uses only the first 72 bytes of the
  UTF-8 password, and that truncation is not modelled. So two passwords with the same
  72-byte prefix are told apart here, but not by the source. Auth.SignInRejectsWrongPassword
  and the "old password no longer signs in" half of Users.ChangePasswordEffect rely on
  this, and hold in the source only for passwords that differ within their first 72 bytes.
- **Side effects.** Clocks (`datetime.now`), environment variables, `print`, async/await,
  and SQLAlchemy's commit, refresh and rollback are left out. Times are parameters, and each
  operation is one atomic step.
- **Caller's claims.** Token creation takes the claims as a value, so the caller's dict is
  untouched by construction.
- Subjects.SubjectService: the source calls the asynchronous session without `await`.
  `self.db.execute(...)` then returns a coroutine, so `.scalars()` raises AttributeError in
  `remove_subject`, `update` and `get_subjects`. In `add_subject`, `commit()` and `refresh()`
  are never awaited, so nothing is committed. The model states the evidently intended
  synchronous effect.
- Subjects.SubjectService.AddSubject: when both the id and the name are already taken, the
  model reports DuplicateKey. Which integrity error the database reports first is not
  modelled, and both are one IntegrityError in the source.
- Subjects.SubjectService.GetSubjects: returns a set; the row order of
  `SELECT * FROM subject` is not modelled.
- Scores.ScoreService.AddScore: the score is an integer, as the column is. The `float` in
  the service signature is not modelled.
- **Unmodelled operations.** The following are left out:
  - `get_avg_by_student` and `get_avg_score`: a floating-point SQL average;
  - `get_all` and `get_all_students`: plain reads;
  - the stub `update_user` and `delete_user`, which have no behaviour;
  - `get_user_by_username`.
- **Database constraints.** Foreign-key checks other than the subject→score cascade,
  MySQL collation and column widths are not modelled. For example, the score table's
  foreign key would refuse to remove a student who still has scores. The model removes the
  student and leaves the scores.
- **Outside the core.** The HTTP controllers, Pydantic validation, the frontend and the
  database engine set-up are not part of this model.

## Findings

| source | as written | input that shows it | evidently intended | confidence | as-written member | corrected member |
|---|---|---|---|---|---|---|
| src/auth/auth_service.py:69 | `except jwt.JWTError` names an attribute PyJWT does not have. A malformed token, a token without `sub`, or a deleted user therefore makes evaluating that clause raise AttributeError. | A valid, unexpired refresh token for a username no longer stored. | "User not found" or "Invalid refresh token", as raised in the try block. | medium, not executed | Auth.RefreshAccessTokenAsWritten | Auth.RefreshAccessToken |
| src/user/user_service.py:35 | `UserRepository` defines no `change_password`, so every change with the right old password raises AttributeError and stores nothing. | An existing user with the right old password and any new password. | The user's digest is replaced by the digest of the new password. | medium, not executed | Users.ChangePasswordAsWritten | Users.UserService.ChangePassword |
