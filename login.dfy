/** The login form's decision chain and what it writes to local storage. */
module Login {
  import opened Base
  import opened Text

  /** The administrator's fixed credentials and the first-login password. */
  const AdminId := "7975035"
  const DefaultPassword := "1234"

  /** The columns of the student row the lookup reads. */
  datatype StudentRow = StudentRow(firstName: string, storedPassword: string)

  datatype Outcome =
    | MissingId
    | MissingPassword
    | AdminLogin
    | FirstLogin(admissionId: string)     // to the password-change page
    | Invalid
    | LoggedIn(admissionId: string)

  datatype Result = Result(outcome: Outcome, storage: map<string, string>)

  /** The id as the form reads it: every white-space character removed. */
  function NormalId(raw: string): string
  {
    Trim(RemoveSpaces(raw))
  }

  /** Where each outcome navigates; the errors stay on the page. */
  function Destination(o: Outcome): Option<Route>
  {
    match o
    case AdminLogin => Some(Admin)
    case FirstLogin(id) => Some(PasswordChange(id))
    case LoggedIn(_) => Some(Dashboard)
    case _ => None
  }

  /** `handleLogin`. `row` is the student lookup (`None` for an error or no row) and
      `verified` the result of the password check (false on an error). */
  function HandleLogin(rawId: string, rawPassword: string, row: Option<StudentRow>, verified: bool,
                       storage: map<string, string>): (r: Result)
    ensures r.outcome == MissingId <==> NormalId(rawId) == ""
    ensures r.outcome == MissingPassword <==> NormalId(rawId) != "" && Trim(rawPassword) == ""
    ensures r.outcome.LoggedIn? ==> row.Some? && verified && r.outcome.admissionId == NormalId(rawId)
    ensures NormalId(rawId) != "" && NormalId(rawId) != AdminId && Trim(rawPassword) == DefaultPassword ==>
      r.outcome == FirstLogin(NormalId(rawId)) && r.storage == storage
    ensures NormalId(rawId) != "" && Trim(rawPassword) != "" && Trim(rawPassword) != DefaultPassword ==>
      r.outcome == (if row.Some? && verified then LoggedIn(NormalId(rawId)) else Invalid)
  {
    var id := NormalId(rawId);
    var password := Trim(rawPassword);
    if id == "" then Result(MissingId, storage)
    else if password == "" then Result(MissingPassword, storage)
    else if id == AdminId && password == DefaultPassword then
      Result(AdminLogin, storage["is_admin" := "true"]["student_admission_id" := id]["student_first_name" := "Admin"])
    else if password == DefaultPassword then Result(FirstLogin(id), storage)
    else if row.None? || !verified then Result(Invalid, storage)
    else
      var name := if row.value.firstName != "" then row.value.firstName else "User";
      Result(LoggedIn(id), storage["student_admission_id" := id]["student_first_name" := name])
  }

  /** The id the form uses has no white space in it. */
  lemma NormalIdHasNoSpace(raw: string)
    ensures forall i :: 0 <= i < |NormalId(raw)| ==> !IsSpace(NormalId(raw)[i])
  {
    var s := RemoveSpaces(raw);
    TrimOfTrimmed(s);
  }

  /** Errors do not navigate; every other outcome does. */
  lemma ErrorsStay(rawId: string, rawPassword: string, row: Option<StudentRow>, verified: bool,
                   storage: map<string, string>)
    ensures var o := HandleLogin(rawId, rawPassword, row, verified, storage).outcome;
      Destination(o).None? <==> o == MissingId || o == MissingPassword || o == Invalid
  {
  }

  /** The first-login password short-cuts the lookup: its outcome is the same whatever
      the database holds. */
  lemma FirstLoginSkipsLookup(rawId: string, rawPassword: string, row1: Option<StudentRow>, verified1: bool,
                              row2: Option<StudentRow>, verified2: bool, storage: map<string, string>)
    requires Trim(rawPassword) == DefaultPassword
    ensures HandleLogin(rawId, rawPassword, row1, verified1, storage) == HandleLogin(rawId, rawPassword, row2, verified2, storage)
  {
  }

  /** Only the administrator's credentials reach the admin page, and they jump the
      lookup. */
  lemma AdminOnlyByCredentials(rawId: string, rawPassword: string, row: Option<StudentRow>, verified: bool,
                               storage: map<string, string>)
    ensures HandleLogin(rawId, rawPassword, row, verified, storage).outcome == AdminLogin
      <==> NormalId(rawId) == AdminId && Trim(rawPassword) == DefaultPassword
  {
  }

  /** Local storage is written only when the login succeeds, and then it holds the
      normalised id. */
  lemma IdStoredOnlyOnSuccess(rawId: string, rawPassword: string, row: Option<StudentRow>, verified: bool,
                              storage: map<string, string>)
    ensures var r := HandleLogin(rawId, rawPassword, row, verified, storage);
      !(r.outcome == AdminLogin || r.outcome.LoggedIn?) ==> r.storage == storage
    ensures var r := HandleLogin(rawId, rawPassword, row, verified, storage);
      (r.outcome == AdminLogin || r.outcome.LoggedIn?) ==>
        "student_admission_id" in r.storage && r.storage["student_admission_id"] == NormalId(rawId)
  {
  }
}
