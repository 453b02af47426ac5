/**
 * The status enums of the database schema, shared by the API routes, with
 * the upper-case names Prisma stores and `toLowerCase()` of those names.
 */
module Records {
  import Text

  datatype ExamStatus = DRAFT | PUBLISHED | ONGOING | COMPLETED | ARCHIVED

  datatype AttemptStatus = IN_PROGRESS | SUBMITTED | ABANDONED | TERMINATED

  function ExamStatusName(s: ExamStatus): string {
    match s
    case DRAFT => "DRAFT"
    case PUBLISHED => "PUBLISHED"
    case ONGOING => "ONGOING"
    case COMPLETED => "COMPLETED"
    case ARCHIVED => "ARCHIVED"
  }

  function AttemptStatusName(s: AttemptStatus): string {
    match s
    case IN_PROGRESS => "IN_PROGRESS"
    case SUBMITTED => "SUBMITTED"
    case ABANDONED => "ABANDONED"
    case TERMINATED => "TERMINATED"
  }

  /** A string whose characters are those of `s` lower-cased is `Lower(s)`. */
  lemma LowerIs(s: string, t: string)
    requires |s| == |t| && forall i :: 0 <= i < |s| ==> t[i] == Text.LowerChar(s[i])
    ensures Text.Lower(s) == t
  {
    Text.LowerChars(s);
  }

  /** `status.toLowerCase()` of an exam status. */
  function LowerExamStatus(s: ExamStatus): (r: string)
    ensures r == Text.Lower(ExamStatusName(s))
  {
    match s
    case DRAFT => LowerIs("DRAFT", "draft"); "draft"
    case PUBLISHED => LowerIs("PUBLISHED", "published"); "published"
    case ONGOING => LowerIs("ONGOING", "ongoing"); "ongoing"
    case COMPLETED => LowerIs("COMPLETED", "completed"); "completed"
    case ARCHIVED => LowerIs("ARCHIVED", "archived"); "archived"
  }

  /** `status.toLowerCase()` of an attempt status: the underscore stays, so IN_PROGRESS gives "in_progress". */
  function LowerAttemptStatus(s: AttemptStatus): (r: string)
    ensures r == Text.Lower(AttemptStatusName(s))
  {
    match s
    case IN_PROGRESS => LowerIs("IN_PROGRESS", "in_progress"); "in_progress"
    case SUBMITTED => LowerIs("SUBMITTED", "submitted"); "submitted"
    case ABANDONED => LowerIs("ABANDONED", "abandoned"); "abandoned"
    case TERMINATED => LowerIs("TERMINATED", "terminated"); "terminated"
  }

  /** Lower-casing keeps the statuses apart. */
  lemma LowerExamStatusInjective(a: ExamStatus, b: ExamStatus)
    requires LowerExamStatus(a) == LowerExamStatus(b)
    ensures a == b
  {
  }
}
