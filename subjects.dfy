/**
 * Adding, removing, updating and listing subjects (SubjectService) over the
 * session's subject table.
 *
 * The database refuses a second row with the same subject_id (primary key) or
 * the same name (unique constraint); both are integrity errors at commit, and
 * the session is rolled back. Removing a subject removes its scores too,
 * through the `delete-orphan` cascade of Subject.scores. A missing subject
 * makes the ORM raise (delete of None, attribute of None); here that is the
 * NotFound error.
 */
module Subjects {
  import opened Common
  import opened Models
  import opened Database
  import opened ScoreRepo

  datatype DbError = NotFound | DuplicateKey | DuplicateName

  /** Some subject other than `subjectId` already has this name: storing a subject with
      that id and name would break the unique constraint on subject.name, and storing it
      when the name is free keeps the constraint. */
  function NameTaken(subjects: map<int, Subject>, name: string, subjectId: int): (taken: bool)
    ensures SubjectNamesUnique(subjects) ==>
              forall amount :: (taken <==> !SubjectNamesUnique(subjects[subjectId := Subject(subjectId, name, amount)]))
  {
    var taken := exists k :: k in subjects && k != subjectId && subjects[k].name == name;
    forall amount
      ensures SubjectNamesUnique(subjects) ==>
                (taken <==> !SubjectNamesUnique(subjects[subjectId := Subject(subjectId, name, amount)]))
    {
      NameClash(subjects, Subject(subjectId, name, amount));
    }
    taken
  }

  lemma NameClash(subjects: map<int, Subject>, s: Subject)
    ensures SubjectNamesUnique(subjects) ==>
              ((exists k :: k in subjects && k != s.subjectId && subjects[k].name == s.name)
               <==> !SubjectNamesUnique(subjects[s.subjectId := s]))
  {
    var after := subjects[s.subjectId := s];
    if SubjectNamesUnique(subjects) {
      if exists k :: k in subjects && k != s.subjectId && subjects[k].name == s.name {
        var k :| k in subjects && k != s.subjectId && subjects[k].name == s.name;
        assert after[k].name == after[s.subjectId].name;
      } else {
        forall k1, k2 | k1 in after && k2 in after && k1 != k2 ensures after[k1].name != after[k2].name {
          if k1 != s.subjectId && k2 != s.subjectId {
            assert after[k1] == subjects[k1] && after[k2] == subjects[k2];
          }
        }
      }
    }
  }

  /** The record update leaves behind: `name if name else subject.name`,
      `amount if amount else subject.amount`. */
  function ApplySubjectUpdate(s: Subject, name: string, amount: int): (r: Subject)
    ensures r.subjectId == s.subjectId
    ensures name != "" ==> r.name == name
    ensures name == "" ==> r.name == s.name
    ensures amount != 0 ==> r.amount == amount
    ensures amount == 0 ==> r.amount == s.amount
  {
    s.(name := if name != "" then name else s.name, amount := if amount != 0 then amount else s.amount)
  }

  /** An amount of 0, and an empty name, can never be set by an update: a stored subject
      whose amount is non-zero keeps a non-zero amount whatever the arguments. */
  lemma UpdateCannotClear(s: Subject, name: string, amount: int)
    ensures ApplySubjectUpdate(s, "", 0) == s
    ensures s.amount != 0 ==> ApplySubjectUpdate(s, name, amount).amount != 0
    ensures s.name != "" ==> ApplySubjectUpdate(s, name, amount).name != ""
    ensures ApplySubjectUpdate(s, name, amount).amount == 0 ==> s.amount == 0 && amount == 0
  {
  }

  class SubjectService {
    const db: Session

    constructor (db: Session)
      ensures this.db == db
    {
      this.db := db;
    }

    /** get_subjects: every stored subject and nothing else (in no particular order). */
    function GetSubjects(): (r: set<Subject>)
      reads this, db
      requires db.Valid()
      ensures forall s :: s in r <==> s.subjectId in db.subjects && db.subjects[s.subjectId] == s
    {
      set k | k in db.subjects :: db.subjects[k]
    }

    /** add_subject: stores exactly the given subject, unless its id or its name is taken. */
    method AddSubject(subjectId: int, name: string, amount: int) returns (r: Result<Subject, DbError>)
      requires db.Valid()
      modifies db
      ensures db.Valid()
      ensures subjectId in old(db.subjects) ==> r == Err(DuplicateKey) && db.subjects == old(db.subjects)
      ensures subjectId !in old(db.subjects) && NameTaken(old(db.subjects), name, subjectId) ==>
                r == Err(DuplicateName) && db.subjects == old(db.subjects)
      ensures subjectId !in old(db.subjects) && !NameTaken(old(db.subjects), name, subjectId) ==>
                && r == Ok(Subject(subjectId, name, amount))
                && db.subjects == old(db.subjects)[subjectId := r.value]
      ensures db.users == old(db.users) && db.students == old(db.students)
      ensures db.scores == old(db.scores) && db.nextScoreId == old(db.nextScoreId)
    {
      if subjectId in db.subjects {
        return Err(DuplicateKey);
      }
      if NameTaken(db.subjects, name, subjectId) {
        return Err(DuplicateName);
      }
      var subject := Subject(subjectId, name, amount);
      db.subjects := db.subjects[subjectId := subject];
      r := Ok(subject);
    }

    /** remove_subject: deletes the subject and, through the cascade, exactly its scores, and
        returns the deleted subject. */
    method RemoveSubject(subjectId: int) returns (r: Result<Subject, DbError>)
      requires db.Valid()
      modifies db
      ensures db.Valid()
      ensures subjectId !in old(db.subjects) ==>
                r == Err(NotFound) && db.subjects == old(db.subjects) && db.scores == old(db.scores)
      ensures subjectId in old(db.subjects) ==>
                && r == Ok(old(db.subjects)[subjectId])
                && db.subjects == old(db.subjects) - {subjectId}
                && db.scores == Filter(old(db.scores), SubjectIdIsNot(subjectId))
      ensures forall x :: x in db.scores ==> x in old(db.scores)
      ensures subjectId in old(db.subjects) ==>
                forall x :: x in db.scores <==> x in old(db.scores) && x.subjectId != subjectId
      ensures db.users == old(db.users) && db.students == old(db.students)
      ensures db.nextScoreId == old(db.nextScoreId)
    {
      if subjectId !in db.subjects {
        return Err(NotFound);
      }
      var subject := db.subjects[subjectId];
      FilterKeepsIdsDistinct(db.scores, SubjectIdIsNot(subjectId));
      db.scores := Filter(db.scores, SubjectIdIsNot(subjectId));
      db.subjects := db.subjects - {subjectId};
      r := Ok(subject);
    }

    /** update: assigns the non-empty name and the non-zero amount to the stored subject in
        place; a name another subject holds is refused and nothing changes. */
    method Update(subjectId: int, name: string, amount: int) returns (r: Result<Subject, DbError>)
      requires db.Valid()
      modifies db
      ensures db.Valid()
      ensures subjectId !in old(db.subjects) ==> r == Err(NotFound) && db.subjects == old(db.subjects)
      ensures subjectId in old(db.subjects) &&
              NameTaken(old(db.subjects), ApplySubjectUpdate(old(db.subjects)[subjectId], name, amount).name, subjectId) ==>
                r == Err(DuplicateName) && db.subjects == old(db.subjects)
      ensures subjectId in old(db.subjects) &&
              !NameTaken(old(db.subjects), ApplySubjectUpdate(old(db.subjects)[subjectId], name, amount).name, subjectId) ==>
                && r == Ok(ApplySubjectUpdate(old(db.subjects)[subjectId], name, amount))
                && db.subjects == old(db.subjects)[subjectId := r.value]
      ensures db.users == old(db.users) && db.students == old(db.students)
      ensures db.scores == old(db.scores) && db.nextScoreId == old(db.nextScoreId)
    {
      if subjectId !in db.subjects {
        return Err(NotFound);
      }
      var subject := db.subjects[subjectId];
      if name != "" {
        subject := subject.(name := name);
      }
      if amount != 0 {
        subject := subject.(amount := amount);
      }
      if NameTaken(db.subjects, subject.name, subjectId) {
        return Err(DuplicateName);
      }
      db.subjects := db.subjects[subjectId := subject];
      r := Ok(subject);
    }
  }
}
