/**
 * The score table's queries and writes (ScoreRepository).
 *
 * The queries are SQL statements and become functions of the table's rows:
 * a selection, an ordering by date and a per-subject maximum. SQL leaves the
 * order of equal dates and of groups open; the functions fix one, and their
 * contracts promise only what SQL does. The writes change the session's rows.
 */
module ScoreRepo {
  import opened Common
  import opened Models
  import opened Database

  // ---------------------------------------------------------------------------
  // Selections

  /** The row conditions the score operations use. */
  datatype Where =
    | StudentIdIs(studentId: Option<int>)   // Score.student_id == student_id (None is SQL NULL: no row)
    | SubjectIdIsNot(subjectId: int)        // the rows a subject's deletion leaves
    | ScoreIdIsNot(scoreId: int)            // the rows a score's deletion leaves

  predicate Keeps(w: Where, s: Score)
  {
    match w
    case StudentIdIs(id) => id.Some? && s.studentId == id.value
    case SubjectIdIsNot(id) => s.subjectId != id
    case ScoreIdIsNot(id) => s.scoreId != id
  }

  /** The rows satisfying `w`, in table order, each as often as in the table. */
  function Filter(rows: seq<Score>, w: Where): (r: seq<Score>)
    ensures forall x :: x in r <==> x in rows && Keeps(w, x)
  {
    if rows == [] then []
    else
      var rest := Filter(rows[1..], w);
      if Keeps(w, rows[0]) then [rows[0]] + rest else rest
  }

  /** Each kept row occurs in the selection as often as in the table. */
  lemma {:induction false} FilterCounts(rows: seq<Score>, w: Where)
    ensures forall x :: multiset(Filter(rows, w))[x] == if Keeps(w, x) then multiset(rows)[x] else 0
  {
    if rows != [] {
      FilterCounts(rows[1..], w);
      assert rows == [rows[0]] + rows[1..];
    }
  }

  /** Removing rows keeps score ids distinct. */
  lemma {:induction false} FilterKeepsIdsDistinct(rows: seq<Score>, w: Where)
    requires ScoreIdsDistinct(rows)
    ensures ScoreIdsDistinct(Filter(rows, w))
  {
    if rows != [] {
      var tail := rows[1..];
      assert ScoreIdsDistinct(tail) by {
        forall i, j | 0 <= i < j < |tail| ensures tail[i].scoreId != tail[j].scoreId {
          assert tail[i] == rows[i + 1] && tail[j] == rows[j + 1];
        }
      }
      FilterKeepsIdsDistinct(tail, w);
      var rest := Filter(tail, w);
      if Keeps(w, rows[0]) {
        var r := Filter(rows, w);
        assert r == [rows[0]] + rest;
        forall j | 0 <= j < |rest| ensures rest[j].scoreId != rows[0].scoreId {
          assert rest[j] in tail;
          var k :| 0 <= k < |tail| && tail[k] == rest[j];
          assert rows[k + 1] == rest[j];
        }
        forall i, j | 0 <= i < j < |r| ensures r[i].scoreId != r[j].scoreId {
          assert r[j] == rest[j - 1];
          if i > 0 {
            assert r[i] == rest[i - 1];
          }
        }
      }
    }
  }

  // ---------------------------------------------------------------------------
  // Ordering by date

  /** `a` may come before `b` under ORDER BY date ASC (or DESC). */
  predicate InOrder(a: Score, b: Score, ascending: bool)
  {
    if ascending then a.date.ordinal <= b.date.ordinal else a.date.ordinal >= b.date.ordinal
  }

  predicate SortedByDate(s: seq<Score>, ascending: bool)
  {
    forall i, j :: 0 <= i < j < |s| ==> InOrder(s[i], s[j], ascending)
  }

  /** The first row of a sorted list may precede every later row. */
  lemma HeadPrecedes(s: seq<Score>, ascending: bool)
    requires SortedByDate(s, ascending) && s != []
    ensures forall y :: y in s[1..] ==> InOrder(s[0], y, ascending)
  {
    forall y | y in s[1..] ensures InOrder(s[0], y, ascending) {
      var k :| 0 <= k < |s[1..]| && s[1..][k] == y;
      assert s[k + 1] == y;
    }
  }

  /** A row that may precede every row of a sorted list can be put in front of it. */
  lemma ConsSorted(a: Score, t: seq<Score>, ascending: bool)
    requires SortedByDate(t, ascending)
    requires forall y :: y in t ==> InOrder(a, y, ascending)
    ensures SortedByDate([a] + t, ascending)
  {
    var r := [a] + t;
    forall i, j | 0 <= i < j < |r| ensures InOrder(r[i], r[j], ascending) {
      assert r[j] == t[j - 1];
      if i == 0 {
        assert t[j - 1] in t;
      } else {
        assert r[i] == t[i - 1];
      }
    }
  }

  function Insert(x: Score, s: seq<Score>, ascending: bool): (r: seq<Score>)
    requires SortedByDate(s, ascending)
    ensures SortedByDate(r, ascending)
    ensures multiset(r) == multiset(s) + multiset{x}
    ensures forall y :: y in r <==> y == x || y in s
  {
    if s == [] then [x]
    else if InOrder(x, s[0], ascending) then
      ConsSorted(x, s, ascending);
      [x] + s
    else
      assert s == [s[0]] + s[1..];
      var rest := Insert(x, s[1..], ascending);
      HeadPrecedes(s, ascending);
      ConsSorted(s[0], rest, ascending);
      [s[0]] + rest
  }

  /** An ordering of the rows by date (insertion sort). */
  function SortByDate(s: seq<Score>, ascending: bool): (r: seq<Score>)
    ensures SortedByDate(r, ascending)
    ensures multiset(r) == multiset(s)
  {
    if s == [] then []
    else
      assert s == [s[0]] + s[1..];
      Insert(s[0], SortByDate(s[1..], ascending), ascending)
  }

  /** get_by_student: exactly the rows of that student, each as often as stored, ordered by
      date ascending or descending. */
  function GetByStudent(rows: seq<Score>, studentId: Option<int>, ascending: bool): (r: seq<Score>)
    ensures forall x :: multiset(r)[x] ==
              if studentId.Some? && x.studentId == studentId.value then multiset(rows)[x] else 0
    ensures forall x :: x in r <==> x in rows && studentId == Some(x.studentId)
    ensures SortedByDate(r, ascending)
  {
    FilterCounts(rows, StudentIdIs(studentId));
    var r := SortByDate(Filter(rows, StudentIdIs(studentId)), ascending);
    assert forall x :: x in r <==> multiset(r)[x] > 0;
    r
  }

  // ---------------------------------------------------------------------------
  // Maximum score per subject

  /** One row of `SELECT subject_id, MAX(score) ... GROUP BY subject_id`. */
  datatype SubjectMax = SubjectMax(subjectId: int, maxScore: int)

  predicate HasSubject(rows: seq<Score>, subjectId: int)
  {
    exists i :: 0 <= i < |rows| && rows[i].subjectId == subjectId
  }

  /** The distinct subject ids of the rows. */
  function SubjectIds(rows: seq<Score>): (ids: seq<int>)
    ensures forall i, j :: 0 <= i < j < |ids| ==> ids[i] != ids[j]
    ensures forall k :: k in ids <==> HasSubject(rows, k)
  {
    if rows == [] then []
    else
      var rest := SubjectIds(rows[1..]);
      assert forall k :: HasSubject(rows[1..], k) ==> HasSubject(rows, k) by {
        forall k | HasSubject(rows[1..], k) ensures HasSubject(rows, k) {
          var i :| 0 <= i < |rows[1..]| && rows[1..][i].subjectId == k;
          assert rows[i + 1].subjectId == k;
        }
      }
      assert forall k :: HasSubject(rows, k) && k != rows[0].subjectId ==> HasSubject(rows[1..], k) by {
        forall k | HasSubject(rows, k) && k != rows[0].subjectId ensures HasSubject(rows[1..], k) {
          var i :| 0 <= i < |rows| && rows[i].subjectId == k;
          assert rows[1..][i - 1].subjectId == k;
        }
      }
      if rows[0].subjectId in rest then rest else [rows[0].subjectId] + rest
  }

  /** The largest score among the rows of one subject. */
  function MaxOf(rows: seq<Score>, subjectId: int): (m: int)
    requires HasSubject(rows, subjectId)
    ensures forall i :: 0 <= i < |rows| && rows[i].subjectId == subjectId ==> rows[i].score <= m
    ensures exists i :: 0 <= i < |rows| && rows[i].subjectId == subjectId && rows[i].score == m
  {
    var tail := rows[1..];
    assert forall i :: 1 <= i < |rows| ==> rows[i] == tail[i - 1];
    if !HasSubject(tail, subjectId) then
      rows[0].score
    else
      var m := MaxOf(tail, subjectId);
      if rows[0].subjectId == subjectId && rows[0].score > m then rows[0].score else m
  }

  /** get_max_score_subjects: one row per subject present, holding the largest of that
      subject's scores. */
  function GetMaxScoreSubjects(rows: seq<Score>): (r: seq<SubjectMax>)
    ensures forall i, j :: 0 <= i < j < |r| ==> r[i].subjectId != r[j].subjectId
    ensures forall k :: HasSubject(rows, k) <==> exists i :: 0 <= i < |r| && r[i].subjectId == k
    ensures forall i, j :: 0 <= i < |r| && 0 <= j < |rows| && rows[j].subjectId == r[i].subjectId ==>
              rows[j].score <= r[i].maxScore
    ensures forall i :: 0 <= i < |r| ==>
              exists j :: 0 <= j < |rows| && rows[j].subjectId == r[i].subjectId && rows[j].score == r[i].maxScore
  {
    var ids := SubjectIds(rows);
    var r := seq(|ids|, i requires 0 <= i < |ids| => SubjectMax(ids[i], MaxOf(rows, ids[i])));
    assert forall k :: (exists i :: 0 <= i < |r| && r[i].subjectId == k) <==> k in ids by {
      forall k ensures (exists i :: 0 <= i < |r| && r[i].subjectId == k) <==> k in ids {
        if k in ids {
          var i :| 0 <= i < |ids| && ids[i] == k;
          assert r[i].subjectId == k;
        }
      }
    }
    r
  }

  // ---------------------------------------------------------------------------
  // Lookup by score_id

  /** The position of the first row with that score_id, or |rows| when there is none. */
  function FindById(rows: seq<Score>, scoreId: int): (i: nat)
    ensures i <= |rows|
    ensures forall j :: 0 <= j < i ==> rows[j].scoreId != scoreId
    ensures i < |rows| ==> rows[i].scoreId == scoreId
  {
    if rows == [] then 0
    else if rows[0].scoreId == scoreId then 0
    else 1 + FindById(rows[1..], scoreId)
  }

  /** get_by_id: the first row with that score_id, or None. */
  function GetById(rows: seq<Score>, scoreId: int): (r: Option<Score>)
    ensures r.None? <==> forall j :: 0 <= j < |rows| ==> rows[j].scoreId != scoreId
    ensures r.Some? ==>
              exists i :: 0 <= i < |rows| && rows[i] == r.value && rows[i].scoreId == scoreId
                          && forall j :: 0 <= j < i ==> rows[j].scoreId != scoreId
  {
    var i := FindById(rows, scoreId);
    if i < |rows| then Some(rows[i]) else None
  }

  /** With distinct score ids, the row get_by_id finds is the only one with that id. */
  lemma GetByIdUnique(rows: seq<Score>, scoreId: int)
    requires ScoreIdsDistinct(rows)
    requires GetById(rows, scoreId).Some?
    ensures forall x :: x in rows && x.scoreId == scoreId ==> x == GetById(rows, scoreId).value
  {
    var i := FindById(rows, scoreId);
    forall x | x in rows && x.scoreId == scoreId ensures x == rows[i] {
      var j :| 0 <= j < |rows| && rows[j] == x;
      assert !(j < i || i < j);
    }
  }

  // ---------------------------------------------------------------------------
  // Writes

  /** A new score object before the database has assigned its score_id. */
  datatype ScoreDraft = ScoreDraft(studentId: int, subjectId: int, score: int, date: Date)

  class ScoreRepository {
    const db: Session

    constructor (db: Session)
      ensures this.db == db
    {
      this.db := db;
    }

    /** add: the row is stored under the next auto-increment score_id, which no row has. */
    method Add(draft: ScoreDraft) returns (stored: Score)
      requires db.Valid()
      modifies db
      ensures db.Valid()
      ensures stored == Score(old(db.nextScoreId), draft.studentId, draft.subjectId, draft.score, draft.date)
      ensures GetById(old(db.scores), stored.scoreId) == None
      ensures db.scores == old(db.scores) + [stored]
      ensures db.nextScoreId == old(db.nextScoreId) + 1
      ensures db.users == old(db.users) && db.students == old(db.students) && db.subjects == old(db.subjects)
    {
      stored := Score(db.nextScoreId, draft.studentId, draft.subjectId, draft.score, draft.date);
      db.scores := db.scores + [stored];
      db.nextScoreId := db.nextScoreId + 1;
    }

    /** delete: removes exactly the row with that score's id. */
    method Delete(score: Score)
      requires db.Valid()
      modifies db
      ensures db.Valid()
      ensures db.scores == Filter(old(db.scores), ScoreIdIsNot(score.scoreId))
      ensures db.nextScoreId == old(db.nextScoreId)
      ensures db.users == old(db.users) && db.students == old(db.students) && db.subjects == old(db.subjects)
    {
      FilterKeepsIdsDistinct(db.scores, ScoreIdIsNot(score.scoreId));
      db.scores := Filter(db.scores, ScoreIdIsNot(score.scoreId));
    }

    /** update: commits the fields assigned in place on a loaded row; the row keeps its
        position and its score_id. */
    method Update(changed: Score) returns (r: Score)
      requires db.Valid()
      requires GetById(db.scores, changed.scoreId).Some?
      modifies db
      ensures db.Valid()
      ensures r == changed
      ensures db.scores == old(db.scores)[FindById(old(db.scores), changed.scoreId) := changed]
      ensures db.nextScoreId == old(db.nextScoreId)
      ensures db.users == old(db.users) && db.students == old(db.students) && db.subjects == old(db.subjects)
    {
      var i := FindById(db.scores, changed.scoreId);
      db.scores := db.scores[i := changed];
      r := changed;
    }
  }
}
