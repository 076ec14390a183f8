/** The `submissions` table as the protect and reveal pipelines use it: the
    stored procedure `sp_create_submission` adds a row (its body is not part
    of this model, so whether it accepts a row is a parameter), and the
    windows look rows up by id. */
module Submissions {
  import opened Base

  /** One row; a grade or feedback that is NULL reads as the empty string. */
  datatype SubmissionRow = SubmissionRow(id: int, assignmentId: int, studentId: int,
                                         filePath: string, originalName: string,
                                         grade: string, feedback: string)

  /** `SELECT ... FROM submissions WHERE id = ?`, first row. */
  function FindById(rows: seq<SubmissionRow>, id: int): (r: Option<SubmissionRow>)
    ensures r.Some? ==> r.value in rows && r.value.id == id
    ensures r.None? ==> forall i :: 0 <= i < |rows| ==> rows[i].id != id
  {
    if rows == [] then None
    else if rows[0].id == id then Some(rows[0])
    else FindById(rows[1..], id)
  }

  /** Every id in `rows` is below `bound`. */
  ghost predicate IdsBelow(rows: seq<SubmissionRow>, bound: int) {
    forall i :: 0 <= i < |rows| ==> rows[i].id < bound
  }

  /** A row appended with an id above all the others is what a lookup of
      that id finds. */
  lemma {:induction false} FindAppended(rows: seq<SubmissionRow>, row: SubmissionRow)
    requires IdsBelow(rows, row.id)
    ensures FindById(rows + [row], row.id) == Some(row)
  {
    if rows != [] {
      assert (rows + [row])[1..] == rows[1..] + [row];
      assert IdsBelow(rows[1..], row.id) by {
        forall i | 0 <= i < |rows[1..]| ensures rows[1..][i].id < row.id {
          assert rows[1..][i] == rows[i + 1];
        }
      }
      FindAppended(rows[1..], row);
    }
  }

  class SubmissionsTable {
    var rows: seq<SubmissionRow>
    var nextId: int

    ghost predicate Valid()
      reads this
    {
      nextId > 0 && IdsBelow(rows, nextId)
    }

    constructor ()
      ensures Valid() && rows == [] && nextId == 1
    {
      rows := [];
      nextId := 1;
    }

    /** `SELECT sp_create_submission(assignment, student, file, name)`: on
        success one new row with a fresh id, no grade and no feedback. */
    method Create(accepts: bool, assignmentId: int, studentId: int, filePath: string,
                  originalName: string) returns (ok: bool)
      requires Valid()
      modifies this
      ensures Valid()
      ensures ok == accepts
      ensures ok ==> && rows == old(rows) + [SubmissionRow(old(nextId), assignmentId, studentId,
                                                           filePath, originalName, "", "")]
                     && nextId == old(nextId) + 1
      ensures !ok ==> rows == old(rows) && nextId == old(nextId)
    {
      ok := accepts;
      if ok {
        rows := rows + [SubmissionRow(nextId, assignmentId, studentId, filePath, originalName, "", "")];
        nextId := nextId + 1;
      }
    }
  }
}
