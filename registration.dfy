/** Student self-registration: the form checks, the shape of the generated
    admission id, and the redirect countdown shown after success. */
module Registration {
  import opened Base
  import opened Text

  // ---------------------------------------------------------------- parseInt

  /** The longest prefix of decimal digits. */
  function DigitPrefix(s: string): (r: string)
    ensures |r| <= |s| && r == s[..|r|]
    ensures forall i :: 0 <= i < |r| ==> IsDigit(r[i])
    ensures |r| < |s| ==> !IsDigit(s[|r|])
  {
    if s == [] || !IsDigit(s[0]) then "" else [s[0]] + DigitPrefix(s[1..])
  }

  /** `parseInt(s)` in base 10: leading white space, an optional sign, then as many
      digits as there are; `None` stands for `NaN` (no digit at all). */
  function ParseInt(s: string): Option<int>
  {
    var t := TrimStart(s);
    if t != [] && (t[0] == '-' || t[0] == '+') then
      var d := DigitPrefix(t[1..]);
      var v: int := DecimalValue(d);
      if d == [] then None else Some(if t[0] == '-' then -v else v)
    else
      var d := DigitPrefix(t);
      if d == [] then None else Some(DecimalValue(d))
  }

  /** A digit string is its own digit prefix. */
  lemma {:induction false} DigitPrefixOfDigits(s: string)
    requires forall i :: 0 <= i < |s| ==> IsDigit(s[i])
    ensures DigitPrefix(s) == s
  {
    if s != [] {
      DigitPrefixOfDigits(s[1..]);
    }
  }

  /** A numeral reads back as its number. */
  lemma ParseIntNumeral(n: nat)
    ensures ParseInt(NatToString(n)) == Some(n)
  {
    var r := NatToString(n);
    DigitNotSpace(r[0]);
    TrimStartFacts(r);
    DigitPrefixOfDigits(r);
  }

  // ---------------------------------------------------------------- the form

  datatype Form = Form(firstName: string, lastName: string, phone: string, section: string,
                       roll: string, sex: string, age: string, stream: string, password: string)

  datatype FormError = MissingFields | InvalidAge | ShortPassword

  /** A required field is blank: the five text fields after trimming, the sex, age
      and password as typed. */
  predicate MissingField(f: Form)
  {
    Trim(f.firstName) == "" || Trim(f.lastName) == "" || Trim(f.section) == ""
    || Trim(f.roll) == "" || f.sex == "" || f.age == "" || Trim(f.stream) == "" || f.password == ""
  }

  /** `parseInt(age) < 1 || parseInt(age) > 120`; both comparisons are false for
      `NaN`, so an age with no leading digits is let through. */
  predicate AgeOutOfRange(age: string)
  {
    var a := ParseInt(age);
    a.Some? && (a.value < 1 || a.value > 120)
  }

  /** The checks of `handleRegister` in their order; `None` when the form passes. */
  function Check(f: Form): (r: Option<FormError>)
    ensures r == Some(MissingFields) <==> MissingField(f)
    ensures r == Some(InvalidAge) <==> !MissingField(f) && AgeOutOfRange(f.age)
    ensures r == Some(ShortPassword) <==> !MissingField(f) && !AgeOutOfRange(f.age) && Utf16Length(f.password) < 6
  {
    if MissingField(f) then Some(MissingFields)
    else if AgeOutOfRange(f.age) then Some(InvalidAge)
    else if Utf16Length(f.password) < 6 then Some(ShortPassword)
    else None
  }

  /** A form that passes has every field, a password of at least six UTF-16 units,
      and an age between 1 and 120 whenever the age reads as a number. */
  lemma AcceptedForm(f: Form)
    requires Check(f) == None
    ensures Trim(f.firstName) != "" && Trim(f.lastName) != "" && Trim(f.section) != ""
    ensures Trim(f.roll) != "" && Trim(f.stream) != "" && f.sex != "" && f.age != ""
    ensures Utf16Length(f.password) >= 6
    ensures ParseInt(f.age).Some? ==> 1 <= ParseInt(f.age).value <= 120
  {
  }

  /** The length rule counts UTF-16 code units: three characters outside the Basic
      Multilingual Plane make a long enough password. */
  lemma AstralPasswordLongEnough(f: Form)
    requires !MissingField(f) && !AgeOutOfRange(f.age)
    requires |f.password| == 3 && forall i :: 0 <= i < 3 ==> (f.password[i] as int) >= 0x1_0000
    ensures Check(f) == None
  {
  }

  /** An age that is not a number passes the range check. */
  lemma NonNumericAgeAccepted(f: Form)
    requires !MissingField(f) && Utf16Length(f.password) >= 6 && ParseInt(f.age) == None
    ensures Check(f) == None
  {
  }

  // ---------------------------------------------------------------- admission ids

  /** `Math.floor(Math.random() * 1_000_000)`. */
  type Draw = r: nat | r < 1000000

  /** The id only the administrator logs in with. */
  const AdminId := "7975035"

  /** `'7' + draw.toString().padStart(6, '0')`. */
  function Candidate(r: Draw): string
  {
    "7" + PadZeros(NatToString(r), 6)
  }

  function Pow10(k: nat): nat
  {
    if k == 0 then 1 else 10 * Pow10(k - 1)
  }

  /** A number below `10^k` has at most `k` digits. */
  lemma {:induction false} NatToStringLength(n: nat, k: nat)
    requires 1 <= k && n < Pow10(k)
    ensures |NatToString(n)| <= k
  {
    if n >= 10 {
      NatToStringLength(n / 10, k - 1);
    }
  }

  /** An admission id: "7" and six decimal digits. */
  predicate IdShape(id: string)
  {
    |id| == 7 && id[0] == '7' && forall i :: 1 <= i < 7 ==> IsDigit(id[i])
  }

  /** Every candidate has the id shape, and its six digits spell the draw. */
  lemma CandidateShape(r: Draw)
    ensures IdShape(Candidate(r))
    ensures DecimalValue(Candidate(r)[1..]) == r
  {
    var s := NatToString(r);
    assert Pow10(6) == 1000000;
    NatToStringLength(r, 6);
    var p := PadZeros(s, 6);
    PadZerosFacts(s, 6);
    assert Candidate(r)[1..] == p;
    DecimalValueLeadingZeros(p, s);
  }

  /** Different draws give different ids. */
  lemma CandidateInjective(a: Draw, b: Draw)
    requires Candidate(a) == Candidate(b)
    ensures a == b
  {
    CandidateShape(a);
    CandidateShape(b);
  }

  /** `gen` as written: a draw that gives the administrator's id is replaced by a
      second draw, which is not checked again. */
  function GenAsWritten(first: Draw, second: Draw): (id: string)
    ensures IdShape(id)
    ensures Candidate(first) != AdminId ==> id == Candidate(first)
  {
    CandidateShape(first);
    CandidateShape(second);
    var n := Candidate(first);
    if n == AdminId then Candidate(second) else n
  }

  /** Digit strings of one length with one value are equal. */
  lemma {:induction false} DigitsInjective(a: string, b: string)
    requires |a| == |b|
    requires forall i :: 0 <= i < |a| ==> IsDigit(a[i])
    requires forall i :: 0 <= i < |b| ==> IsDigit(b[i])
    requires DecimalValue(a) == DecimalValue(b)
    ensures a == b
  {
    if a != [] {
      var a', b' := a[..|a| - 1], b[..|b| - 1];
      var x, y := DigitValue(a[|a| - 1]), DigitValue(b[|b| - 1]);
      assert DecimalValue(a) == DecimalValue(a') * 10 + x;
      assert DecimalValue(b) == DecimalValue(b') * 10 + y;
      assert x == y && DecimalValue(a') == DecimalValue(b');
      DigitsInjective(a', b');
      assert a == a' + [a[|a| - 1]] && b == b' + [b[|b| - 1]];
    }
  }

  /** Appending a digit multiplies by ten and adds it. */
  lemma DecimalStep(s: string, c: char)
    requires forall i :: 0 <= i < |s| ==> IsDigit(s[i])
    requires IsDigit(c)
    ensures DecimalValue(s + [c]) == DecimalValue(s) * 10 + DigitValue(c)
  {
    assert (s + [c])[..|s|] == s;
  }

  lemma AdminIdDigits()
    ensures IdShape(AdminId) && DecimalValue(AdminId[1..]) == 975035
  {
    var d1 := ['9'];
    var d2 := d1 + ['7'];
    var d3 := d2 + ['5'];
    var d4 := d3 + ['0'];
    var d5 := d4 + ['3'];
    var d6 := d5 + ['5'];
    DecimalStep([], '9');
    DecimalStep(d1, '7');
    DecimalStep(d2, '5');
    DecimalStep(d3, '0');
    DecimalStep(d4, '3');
    DecimalStep(d5, '5');
    assert AdminId[1..] == d6;
  }

  lemma AdminCandidate(r: Draw)
    requires r == 975035
    ensures Candidate(r) == AdminId
  {
    var c := Candidate(r);
    CandidateShape(r);
    AdminIdDigits();
    DigitsInjective(c[1..], AdminId[1..]);
    assert c == [c[0]] + c[1..];
    assert AdminId == [AdminId[0]] + AdminId[1..];
  }

  /** The first candidate is the administrator's id exactly when the draw is 975035. */
  lemma AdminDraw(r: Draw)
    ensures Candidate(r) == AdminId <==> r == 975035
  {
    if r == 975035 {
      AdminCandidate(r);
    }
    if Candidate(r) == AdminId {
      CandidateShape(r);
      AdminIdDigits();
    }
  }

  /** Two draws of 975035 hand out the administrator's id to a student. */
  lemma AsWrittenCanIssueAdminId(first: Draw, second: Draw)
    requires first == 975035 && second == 975035
    ensures GenAsWritten(first, second) == AdminId
  {
    AdminDraw(first);
  }

  /** `gen` as intended: draws are taken until one does not give the administrator's
      id; `None` when every supplied draw gives it. */
  function Gen(draws: seq<Draw>): (id: Option<string>)
    ensures id.Some? ==> IdShape(id.value) && id.value != AdminId
    ensures id.Some? ==> exists i :: 0 <= i < |draws| && id.value == Candidate(draws[i])
    ensures id.None? <==> forall i :: 0 <= i < |draws| ==> draws[i] == 975035
  {
    if draws == [] then None
    else
      AdminDraw(draws[0]);
      CandidateShape(draws[0]);
      if Candidate(draws[0]) != AdminId then Some(Candidate(draws[0]))
      else
        var rest := Gen(draws[1..]);
        assert forall i :: 1 <= i < |draws| ==> draws[i] == draws[1..][i - 1];
        rest
  }

  /** Where the written version keeps away from the administrator's id, the two agree. */
  lemma GenAgreesWithAsWritten(first: Draw, second: Draw)
    requires GenAsWritten(first, second) != AdminId
    ensures Gen([first, second]) == Some(GenAsWritten(first, second))
  {
    AdminDraw(first);
    AdminDraw(second);
    assert [first, second][1..] == [second];
  }

  // ---------------------------------------------------------------- submitting

  /** The row upserted into the student table. */
  datatype StudentRow = StudentRow(admissionId: string, firstName: string, lastName: string, fullName: string,
                                   section: string, roll: string, phone: string, sex: string,
                                   age: Option<int>, stream: string, location: string, password: string)

  datatype Outcome =
    | Ignored                           // a submit while a save is in flight
    | Rejected(error: FormError)
    | SaveFailed
    | Registered(row: StudentRow)       // the id popup opens and the countdown starts

  /** The row for a form that passed, under the generated id. */
  function RowFor(f: Form, id: string): StudentRow
  {
    var fn := Trim(f.firstName);
    var ln := Trim(f.lastName);
    StudentRow(id, fn, ln, fn + " " + ln, Trim(f.section), Trim(f.roll), f.phone, f.sex,
               ParseInt(f.age), Trim(f.stream), "Addis Abeba, Ethiopia", f.password)
  }

  /** `handleRegister` as written: the id comes from `gen` with its two possible draws,
      and `saveOk` is whether the upsert succeeded. */
  function Register(f: Form, loading: bool, first: Draw, second: Draw, saveOk: bool): (o: Outcome)
    ensures loading ==> o == Ignored
    ensures !loading && Check(f).Some? ==> o == Rejected(Check(f).value)
    ensures o.Registered? <==> !loading && Check(f) == None && saveOk
    ensures o.Registered? ==> IdShape(o.row.admissionId)
    ensures o.Registered? && o.row.admissionId == AdminId ==> first == 975035 && second == 975035
    ensures o.Registered? ==> o.row.fullName == o.row.firstName + " " + o.row.lastName
    ensures o.Registered? ==> o.row.firstName == Trim(f.firstName) && o.row.lastName == Trim(f.lastName)
  {
    if loading then Ignored
    else if Check(f).Some? then Rejected(Check(f).value)
    else
      var id := GenAsWritten(first, second);
      AdminAsWritten(first, second);
      if !saveOk then SaveFailed else Registered(RowFor(f, id))
  }

  /** The written generator gives the administrator's id only for two draws of 975035. */
  lemma AdminAsWritten(first: Draw, second: Draw)
    ensures GenAsWritten(first, second) == AdminId <==> first == 975035 && second == 975035
  {
    AdminDraw(first);
    AdminDraw(second);
  }

  /** A valid form registered with two draws of 975035 gets the administrator's id. */
  lemma RegisterCanIssueAdminId(f: Form)
    requires Check(f) == None
    ensures var o := Register(f, false, 975035, 975035, true);
      o.Registered? && o.row.admissionId == AdminId
  {
    AsWrittenCanIssueAdminId(975035, 975035);
  }

  /** `handleRegister` with `gen` as intended: draws are taken until one avoids the
      administrator's id, so a registered student never gets it. */
  function RegisterIntended(f: Form, loading: bool, draws: seq<Draw>, saveOk: bool): (o: Outcome)
    ensures loading ==> o == Ignored
    ensures !loading && Check(f).Some? ==> o == Rejected(Check(f).value)
    ensures o.Registered? ==> Check(f) == None && saveOk
    ensures o.Registered? ==> IdShape(o.row.admissionId) && o.row.admissionId != AdminId
    ensures o.Registered? ==> o.row.fullName == o.row.firstName + " " + o.row.lastName
    ensures o.Registered? ==> o.row.firstName == Trim(f.firstName) && o.row.lastName == Trim(f.lastName)
  {
    if loading then Ignored
    else if Check(f).Some? then Rejected(Check(f).value)
    else
      var id := Gen(draws);
      if id.None? || !saveOk then SaveFailed else Registered(RowFor(f, id.value))
  }

  /** Where the written generator avoids the administrator's id, the intended handler
      registers the same student under the same id. */
  lemma RegisterAgreesWithIntended(f: Form, loading: bool, first: Draw, second: Draw, saveOk: bool)
    requires GenAsWritten(first, second) != AdminId
    ensures RegisterIntended(f, loading, [first, second], saveOk) == Register(f, loading, first, second, saveOk)
  {
    GenAgreesWithAsWritten(first, second);
  }

  // ---------------------------------------------------------------- countdown

  /** The redirect to login after a successful registration. */
  class Countdown {
    var seconds: int
    var atLogin: bool

    /** Started by the success of a registration. */
    constructor ()
      ensures seconds == 20 && !atLogin
    {
      seconds := 20;
      atLogin := false;
    }

    /** One interval tick: at 1 or below the timer navigates to login and shows 0,
        otherwise it counts down by one. */
    method Tick()
      requires !atLogin
      modifies this
      ensures old(seconds) <= 1 ==> seconds == 0 && atLogin
      ensures old(seconds) > 1 ==> seconds == old(seconds) - 1 && !atLogin
    {
      if seconds <= 1 {
        seconds := 0;
        atLogin := true;
      } else {
        seconds := seconds - 1;
      }
    }

    /** From the start, the twentieth tick reaches the login page. */
    method RunToLogin() returns (ticks: nat)
      requires seconds == 20 && !atLogin
      modifies this
      ensures ticks == 20 && atLogin && seconds == 0
    {
      ticks := 0;
      while !atLogin
        invariant 0 <= ticks <= 20
        invariant !atLogin ==> seconds == 20 - ticks && ticks < 20
        invariant atLogin ==> ticks == 20 && seconds == 0
        decreases 20 - ticks
      {
        Tick();
        ticks := ticks + 1;
      }
    }
  }
}
