/**
 * The records of the four tables, with the primary keys the ORM models declare.
 */
module Models {
  import opened Crypto

  /** A calendar date, as its day number (Python's date.toordinal()). */
  datatype Date = Date(ordinal: int)

  /** user: `username` is the primary key; `password` holds a bcrypt digest. */
  datatype User = User(username: string, password: Digest, role: string)

  /** student: `student_id` is the primary key and is never generated. */
  datatype Student = Student(studentId: int, name: string, birthdate: Date, className: string)

  /** subject: `subject_id` is the primary key, `name` is unique. */
  datatype Subject = Subject(subjectId: int, name: string, amount: int)

  /** score: the key is (score_id, student_id, subject_id); score_id is generated. */
  datatype Score = Score(scoreId: int, studentId: int, subjectId: int, score: int, date: Date)

  /** Each stored user sits under its own username. */
  ghost predicate UsersKeyed(users: map<string, User>)
  {
    forall k :: k in users ==> users[k].username == k
  }

  ghost predicate StudentsKeyed(students: map<int, Student>)
  {
    forall k :: k in students ==> students[k].studentId == k
  }

  ghost predicate SubjectsKeyed(subjects: map<int, Subject>)
  {
    forall k :: k in subjects ==> subjects[k].subjectId == k
  }

  /** The unique constraint on subject.name. */
  ghost predicate SubjectNamesUnique(subjects: map<int, Subject>)
  {
    forall k1, k2 :: k1 in subjects && k2 in subjects && k1 != k2 ==> subjects[k1].name != subjects[k2].name
  }

  /** No two score rows share a score_id (it comes from one auto-increment counter). */
  ghost predicate ScoreIdsDistinct(rows: seq<Score>)
  {
    forall i, j :: 0 <= i < j < |rows| ==> rows[i].scoreId != rows[j].scoreId
  }
}
