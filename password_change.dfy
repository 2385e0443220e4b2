/** The password-change form: its checks in order, then one update of the student
    row, then two local-storage flags. */
module PasswordChange {
  import opened Text

  datatype Outcome = Mismatch | TooShort | DefaultPassword | MissingId | UpdateFailed | Changed

  /** What the form leaves behind: the toast it ends with and local storage. */
  datatype Result = Result(outcome: Outcome, storage: map<string, string>)

  /** `handlePasswordChange`; `updateOk` is whether the database update succeeded. */
  function Submit(admissionId: string, newPassword: string, confirm: string, updateOk: bool,
                  storage: map<string, string>): (r: Result)
    ensures r.outcome == Changed <==> newPassword == confirm && Utf16Length(newPassword) >= 6 && admissionId != "" && updateOk
    ensures r.outcome != Changed ==> r.storage == storage
    ensures r.outcome == Changed ==>
      r.storage == storage["user_password_" + admissionId := newPassword]["password_changed_" + admissionId := "true"]
  {
    if newPassword != confirm then Result(Mismatch, storage)
    else if Utf16Length(newPassword) < 6 then Result(TooShort, storage)
    else if newPassword == "1234" then Result(DefaultPassword, storage)
    else if admissionId == "" then Result(MissingId, storage)
    else if !updateOk then Result(UpdateFailed, storage)
    else Result(Changed, storage["user_password_" + admissionId := newPassword]["password_changed_" + admissionId := "true"])
  }

  /** The update is attempted only once every check has passed. */
  predicate UpdateAttempted(r: Result)
  {
    r.outcome == UpdateFailed || r.outcome == Changed
  }

  /** A mismatched confirmation is reported before anything else is looked at. */
  lemma MismatchFirst(admissionId: string, newPassword: string, confirm: string, updateOk: bool,
                      storage: map<string, string>)
    requires newPassword != confirm
    ensures Submit(admissionId, newPassword, confirm, updateOk, storage).outcome == Mismatch
  {
  }

  /** The rule against "1234" never fires: that password is already too short. */
  lemma DefaultRuleUnreachable(admissionId: string, newPassword: string, confirm: string, updateOk: bool,
                               storage: map<string, string>)
    ensures Submit(admissionId, newPassword, confirm, updateOk, storage).outcome != DefaultPassword
  {
    if newPassword == "1234" {
      assert Utf16Length(newPassword) == 4;
    }
  }

  /** An empty admission id stops the form before the database is touched. */
  lemma MissingIdBeforeUpdate(newPassword: string, confirm: string, updateOk: bool, storage: map<string, string>)
    ensures !UpdateAttempted(Submit("", newPassword, confirm, updateOk, storage))
  {
  }
}
