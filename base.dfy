/** Small value types shared by every page of the exam portal. */
module Base {

  /** A value that may be absent: a row that was not found, a field left unset. */
  datatype Option<T> = None | Some(value: T)

  /** The answer of a database query: the call failed, or it returned a row or none
      (`maybeSingle()`; `single()` reports "no row" as an error, which the pages
      treat exactly like a failure, so such lookups are passed as `Failed`). */
  datatype Lookup<T> = Failed | Found(row: T) | NotFound {
    predicate Ok() { !Failed? }
    function Row(): Option<T> {
      match this
      case Found(r) => Some(r)
      case _ => None
    }
  }

  /** The pair every exam record is keyed by: which exam, which student. */
  datatype Key = Key(examId: string, admissionId: string)

  /** Where a page sends the browser: its router target. */
  datatype Route =
    | Login
    | Dashboard
    | Admin
    | PasswordChange(admissionId: string)
    | ExamPage(examId: string)
    | Submitted(examId: string)
    | Cancelled(examId: string, reason: string)

  /** `Number(value) || 1`: a missing, unreadable or zero point value weighs 1. */
  function Weight(value: Option<real>): real
  {
    if value.None? || value.value == 0.0 then 1.0 else value.value
  }
}
