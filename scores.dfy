/**
 * Score operations (ScoreService) over the score repository.
 *
 * A request body the getters read is a JSON object; only its integer members
 * matter here, so it is a map from key to integer.
 */
module Scores {
  import opened Common
  import opened Models
  import opened Database
  import opened ScoreRepo

  /** `student_id_dict.get("student_id")`. */
  function StudentIdOf(request: map<string, int>): (id: Option<int>)
    ensures "student_id" in request ==> id == Some(request["student_id"])
    ensures "student_id" !in request ==> id == None
  {
    if "student_id" in request then Some(request["student_id"]) else None
  }

  /** The record update_score leaves behind: every field but score_id is overwritten. */
  function OverwriteScore(existing: Score, score: int, date: Date, studentId: int, subjectId: int): (r: Score)
    ensures r == Score(existing.scoreId, studentId, subjectId, score, date)
  {
    existing.(score := score, date := date, studentId := studentId, subjectId := subjectId)
  }

  class ScoreService {
    const repository: ScoreRepository

    constructor (db: Session)
      ensures repository.db == db
    {
      repository := new ScoreRepository(db);
    }

    /** get_student_scores: the scores of the request's "student_id", ordered by date; a
        request without that key selects student_id NULL, which no row has. */
    function GetStudentScores(request: map<string, int>, isAscending: bool): (r: seq<Score>)
      reads repository, repository.db
      ensures "student_id" !in request ==> r == []
      ensures forall x :: multiset(r)[x] ==
                if "student_id" in request && x.studentId == request["student_id"]
                then multiset(repository.db.scores)[x] else 0
      ensures "student_id" in request ==>
                forall x :: x in r <==> x in repository.db.scores && x.studentId == request["student_id"]
      ensures SortedByDate(r, isAscending)
    {
      var r := GetByStudent(repository.db.scores, StudentIdOf(request), isAscending);
      assert "student_id" !in request ==> forall x :: x !in r;
      r
    }

    /** add_score: stores exactly the given fields under a fresh score_id. */
    method AddScore(studentId: int, subjectId: int, score: int, date: Date) returns (stored: Score)
      requires repository.db.Valid()
      modifies repository.db
      ensures repository.db.Valid()
      ensures stored.studentId == studentId && stored.subjectId == subjectId
      ensures stored.score == score && stored.date == date
      ensures GetById(old(repository.db.scores), stored.scoreId) == None
      ensures repository.db.scores == old(repository.db.scores) + [stored]
      ensures repository.db.users == old(repository.db.users)
      ensures repository.db.students == old(repository.db.students)
      ensures repository.db.subjects == old(repository.db.subjects)
    {
      stored := repository.Add(ScoreDraft(studentId, subjectId, score, date));
    }

    /** remove_score: deletes and returns the row with that id; None and no change when
        there is none. */
    method RemoveScore(scoreId: int) returns (r: Option<Score>)
      requires repository.db.Valid()
      modifies repository.db
      ensures repository.db.Valid()
      ensures r == GetById(old(repository.db.scores), scoreId)
      ensures r == None ==> repository.db.scores == old(repository.db.scores)
      ensures r.Some? ==>
                && r.value in old(repository.db.scores)
                && r.value.scoreId == scoreId
                && repository.db.scores == Filter(old(repository.db.scores), ScoreIdIsNot(scoreId))
      ensures repository.db.nextScoreId == old(repository.db.nextScoreId)
      ensures repository.db.users == old(repository.db.users)
      ensures repository.db.students == old(repository.db.students)
      ensures repository.db.subjects == old(repository.db.subjects)
    {
      r := GetById(repository.db.scores, scoreId);
      if r.Some? {
        repository.Delete(r.value);
      }
    }

    /** update_score: None and no change for a missing id; otherwise overwrites score, date,
        student_id and subject_id of that row, in place. */
    method UpdateScore(scoreId: int, score: int, date: Date, studentId: int, subjectId: int)
      returns (r: Option<Score>)
      requires repository.db.Valid()
      modifies repository.db
      ensures repository.db.Valid()
      ensures GetById(old(repository.db.scores), scoreId) == None ==>
                r == None && repository.db.scores == old(repository.db.scores)
      ensures GetById(old(repository.db.scores), scoreId).Some? ==>
                && r == Some(Score(scoreId, studentId, subjectId, score, date))
                && repository.db.scores
                   == old(repository.db.scores)[FindById(old(repository.db.scores), scoreId) := r.value]
      ensures repository.db.nextScoreId == old(repository.db.nextScoreId)
      ensures repository.db.users == old(repository.db.users)
      ensures repository.db.students == old(repository.db.students)
      ensures repository.db.subjects == old(repository.db.subjects)
    {
      var existing := GetById(repository.db.scores, scoreId);
      if existing.None? {
        return None;
      }
      var changed := OverwriteScore(existing.value, score, date, studentId, subjectId);
      var updated := repository.Update(changed);
      r := Some(updated);
    }
  }

  /** After a successful update the row is found under the same id with the new fields, and
      every other row is as before. */
  lemma UpdatedRowFound(rows: seq<Score>, scoreId: int, score: int, date: Date, studentId: int, subjectId: int)
    requires ScoreIdsDistinct(rows)
    requires GetById(rows, scoreId).Some?
    ensures var i := FindById(rows, scoreId);
            var after := rows[i := Score(scoreId, studentId, subjectId, score, date)];
            && GetById(after, scoreId) == Some(Score(scoreId, studentId, subjectId, score, date))
            && forall j :: 0 <= j < |rows| && j != i ==> after[j] == rows[j] && rows[j].scoreId != scoreId
  {
    var i := FindById(rows, scoreId);
    var after := rows[i := Score(scoreId, studentId, subjectId, score, date)];
    forall j | 0 <= j < |rows| && j != i ensures rows[j].scoreId != scoreId {
      if j > i {
        assert rows[i].scoreId != rows[j].scoreId;
      }
    }
    assert after[i].scoreId == scoreId;
    assert forall j :: 0 <= j < i ==> after[j] == rows[j];
    assert FindById(after, scoreId) == i;
  }
}
