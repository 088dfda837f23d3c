/**
 * The database session every service and repository is constructed with.
 *
 * Each table is held as an abstract collection: users, students and subjects
 * as maps from primary key to record, scores as the sequence of rows (its key
 * is composite and it is searched row by row). `nextScoreId` is the table's
 * auto-increment counter. Each operation of a service is one atomic step
 * (await, commit and refresh are not modelled).
 */
module Database {
  import opened Models

  class Session {
    var users: map<string, User>
    var students: map<int, Student>
    var subjects: map<int, Subject>
    var scores: seq<Score>
    var nextScoreId: int

    /** The key and uniqueness constraints of the schema. */
    ghost predicate Valid()
      reads this
    {
      && UsersKeyed(users)
      && StudentsKeyed(students)
      && SubjectsKeyed(subjects)
      && SubjectNamesUnique(subjects)
      && ScoreIdsDistinct(scores)
      && (forall s :: s in scores ==> s.scoreId < nextScoreId)
    }

    /** A session over an empty database. */
    constructor ()
      ensures Valid()
      ensures users == map[] && students == map[] && subjects == map[] && scores == []
    {
      users, students, subjects, scores := map[], map[], map[], [];
      nextScoreId := 1;
    }
  }
}
