/**
 * Adding, removing and updating students (StudentService) over the session's
 * student table. An argument left out of update_student is None.
 */
module Students {
  import opened Common
  import opened Models
  import opened Database

  const StudentExists := "Student already exists"

  /** The record update_student leaves behind: each field whose argument is not None is
      replaced, every other field is kept. An empty name or class is still applied. */
  function ApplyStudentUpdate(s: Student, name: Option<string>, birthdate: Option<Date>, className: Option<string>): (r: Student)
    ensures r.studentId == s.studentId
    ensures r.name == (if name.Some? then name.value else s.name)
    ensures r.birthdate == (if birthdate.Some? then birthdate.value else s.birthdate)
    ensures r.className == (if className.Some? then className.value else s.className)
  {
    var s1 := if name.Some? then s.(name := name.value) else s;
    var s2 := if birthdate.Some? then s1.(birthdate := birthdate.value) else s1;
    if className.Some? then s2.(className := className.value) else s2
  }

  class StudentService {
    const db: Session

    constructor (db: Session)
      ensures this.db == db
    {
      this.db := db;
    }

    /** add_student: refuses an existing student_id; otherwise stores exactly the given record. */
    method AddStudent(studentId: int, name: string, birthdate: Date, className: string)
      returns (r: Result<Student, string>)
      requires db.Valid()
      modifies db
      ensures db.Valid()
      ensures studentId in old(db.students) ==> r == Err("Student already exists") && db.students == old(db.students)
      ensures studentId !in old(db.students) ==>
                && r == Ok(Student(studentId, name, birthdate, className))
                && db.students == old(db.students)[studentId := r.value]
      ensures db.users == old(db.users) && db.subjects == old(db.subjects)
      ensures db.scores == old(db.scores) && db.nextScoreId == old(db.nextScoreId)
    {
      if studentId in db.students {
        return Err(StudentExists);
      }
      var student := Student(studentId, name, birthdate, className);
      db.students := db.students[studentId := student];
      r := Ok(student);
    }

    /** remove_student: None for a missing id; otherwise deletes only that entry and returns it. */
    method RemoveStudent(studentId: int) returns (r: Option<Student>)
      requires db.Valid()
      modifies db
      ensures db.Valid()
      ensures studentId !in old(db.students) ==> r == None && db.students == old(db.students)
      ensures studentId in old(db.students) ==>
                && r == Some(old(db.students)[studentId])
                && db.students == old(db.students) - {studentId}
      ensures db.users == old(db.users) && db.subjects == old(db.subjects)
      ensures db.scores == old(db.scores) && db.nextScoreId == old(db.nextScoreId)
    {
      if studentId !in db.students {
        return None;
      }
      var student := db.students[studentId];
      db.students := db.students - {studentId};
      r := Some(student);
    }

    /** update_student: None for a missing id; otherwise assigns the fields whose argument is
        not None, in place, and returns the updated record. */
    method UpdateStudent(studentId: int, name: Option<string>, birthdate: Option<Date>, className: Option<string>)
      returns (r: Option<Student>)
      requires db.Valid()
      modifies db
      ensures db.Valid()
      ensures studentId !in old(db.students) ==> r == None && db.students == old(db.students)
      ensures studentId in old(db.students) ==>
                && r == Some(ApplyStudentUpdate(old(db.students)[studentId], name, birthdate, className))
                && db.students == old(db.students)[studentId := r.value]
      ensures db.users == old(db.users) && db.subjects == old(db.subjects)
      ensures db.scores == old(db.scores) && db.nextScoreId == old(db.nextScoreId)
    {
      if studentId !in db.students {
        return None;
      }
      var student := db.students[studentId];
      if name.Some? {
        student := student.(name := name.value);
      }
      if birthdate.Some? {
        student := student.(birthdate := birthdate.value);
      }
      if className.Some? {
        student := student.(className := className.value);
      }
      db.students := db.students[studentId := student];
      r := Some(student);
    }
  }

  /** update_student with no field given changes nothing; updating is idempotent. */
  lemma StudentUpdateIdempotent(s: Student, name: Option<string>, birthdate: Option<Date>, className: Option<string>)
    ensures ApplyStudentUpdate(s, None, None, None) == s
    ensures var once := ApplyStudentUpdate(s, name, birthdate, className);
            ApplyStudentUpdate(once, name, birthdate, className) == once
  {
  }
}
