/** The administrator page: the student table with its filters and pages, the exam
    settings status, new exam ids, question ordering and validation, CSV import and
    export of questions, the local retake flags and the per-question answer tally. */
module Admin {
  import opened Base
  import opened Text
  import opened Store

  // ---------------------------------------------------------------- students

  /** A `students_1` row; a text column is None when null. */
  datatype Student = Student(admissionId: string, firstName: Option<string>, lastName: Option<string>,
                             fullName: Option<string>, section: Option<string>, roll: Option<string>)

  datatype RetakeFilter = AllStudents | RetakeEnabled | RetakeDisabled

  /** The search box, the section filter (None when unset) and the retake filter. */
  datatype StudentFilter = StudentFilter(query: string, section: Option<string>, retake: RetakeFilter)

  function OrEmpty(s: Option<string>): string
  {
    if s.Some? then s.value else ""
  }

  /** `full_name || (first_name || '') + ' ' + (last_name || '')`. */
  function DisplayName(s: Student): string
  {
    if s.fullName.Some? && s.fullName.value != "" then s.fullName.value
    else OrEmpty(s.firstName) + " " + OrEmpty(s.lastName)
  }

  /** A blank query matches everyone; otherwise a case-insensitive substring of the
      id, the name or the roll number. */
  predicate MatchesQuery(s: Student, query: string)
  {
    var qv := Trim(Lower(query));
    qv == "" || Contains(Lower(s.admissionId), qv) || Contains(Lower(DisplayName(s)), qv)
    || Contains(Lower(OrEmpty(s.roll)), qv)
  }

  predicate MatchesSection(s: Student, section: Option<string>)
  {
    section.None? || section.value == "" || Lower(OrEmpty(s.section)) == Lower(section.value)
  }

  /** `!!retakeEnabledMap[admission_id]`: an id without an entry is not enabled. */
  predicate Enabled(retake: map<string, bool>, id: string)
  {
    id in retake && retake[id]
  }

  predicate MatchesRetake(s: Student, f: RetakeFilter, retake: map<string, bool>)
  {
    match f
    case AllStudents => true
    case RetakeEnabled => Enabled(retake, s.admissionId)
    case RetakeDisabled => !Enabled(retake, s.admissionId)
  }

  predicate Keeps(f: StudentFilter, retake: map<string, bool>, s: Student)
  {
    MatchesQuery(s, f.query) && MatchesSection(s, f.section) && MatchesRetake(s, f.retake, retake)
  }

  /** `filtered`: the students the three filters keep, in their order. */
  function Filtered(ss: seq<Student>, f: StudentFilter, retake: map<string, bool>): (r: seq<Student>)
    ensures |r| <= |ss|
    ensures forall x :: x in r <==> x in ss && Keeps(f, retake, x)
  {
    if ss == [] then []
    else
      assert forall x :: x in ss <==> x == ss[0] || x in ss[1..];
      (if Keeps(f, retake, ss[0]) then [ss[0]] else []) + Filtered(ss[1..], f, retake)
  }

  lemma ConcatAssoc<T>(x: seq<T>, y: seq<T>, z: seq<T>)
    ensures x + (y + z) == (x + y) + z
  {
  }

  /** One step of the filter: the head is kept or dropped, then the rest is filtered. */
  lemma FilteredCons(ss: seq<Student>, f: StudentFilter, retake: map<string, bool>)
    requires ss != []
    ensures Filtered(ss, f, retake) == (if Keeps(f, retake, ss[0]) then [ss[0]] else []) + Filtered(ss[1..], f, retake)
  {
  }

  /** Filtering keeps the order of the list: it distributes over concatenation, so a
      kept student stays ahead of every kept student that followed it. */
  lemma {:induction false} FilteredConcat(a: seq<Student>, b: seq<Student>, f: StudentFilter, retake: map<string, bool>)
    ensures Filtered(a + b, f, retake) == Filtered(a, f, retake) + Filtered(b, f, retake)
  {
    if a == [] {
      assert a + b == b;
    } else {
      var c := a + b;
      assert c[0] == a[0] && c[1..] == a[1..] + b;
      var head: seq<Student> := if Keeps(f, retake, a[0]) then [a[0]] else [];
      var rest, tail := Filtered(a[1..], f, retake), Filtered(b, f, retake);
      FilteredCons(c, f, retake);
      FilteredCons(a, f, retake);
      FilteredConcat(a[1..], b, f, retake);
      assert Filtered(c, f, retake) == head + (rest + tail);
      ConcatAssoc(head, rest, tail);
    }
  }

  /** A student appended to the list is kept at the end exactly when the filters
      keep it. */
  lemma FilteredSnoc(ss: seq<Student>, s: Student, f: StudentFilter, retake: map<string, bool>)
    ensures Filtered(ss + [s], f, retake) == Filtered(ss, f, retake) + (if Keeps(f, retake, s) then [s] else [])
  {
    FilteredConcat(ss, [s], f, retake);
    assert [s][1..] == [];
  }

  /** The search is case-insensitive. */
  lemma QueryIgnoresCase(s: Student, query: string)
    ensures MatchesQuery(s, Lower(query)) <==> MatchesQuery(s, query)
  {
    LowerIdempotent(query);
  }

  /** A blank search with no section and all retake states keeps the whole list. */
  lemma {:induction false} NoFilterKeepsAll(ss: seq<Student>, query: string, retake: map<string, bool>)
    requires Trim(query) == ""
    ensures Filtered(ss, StudentFilter(query, None, AllStudents), retake) == ss
  {
    TrimLower(query);
    LowerFacts(Trim(query));
    if ss != [] {
      NoFilterKeepsAll(ss[1..], query, retake);
    }
  }

  /** The enabled and disabled views split the list between them. */
  lemma {:induction false} RetakeViewsPartition(ss: seq<Student>, query: string, section: Option<string>, retake: map<string, bool>)
    ensures |Filtered(ss, StudentFilter(query, section, RetakeEnabled), retake)|
          + |Filtered(ss, StudentFilter(query, section, RetakeDisabled), retake)|
         == |Filtered(ss, StudentFilter(query, section, AllStudents), retake)|
  {
    if ss != [] {
      RetakeViewsPartition(ss[1..], query, section, retake);
    }
  }

  // ---------------------------------------------------------------- pages

  const PageSize: nat := 10

  /** `Math.max(1, Math.ceil(n / pageSize))`. */
  function TotalPages(n: nat): nat
  {
    if n == 0 then 1 else (n + PageSize - 1) / PageSize
  }

  lemma TotalPagesBounds(n: nat)
    ensures TotalPages(n) >= 1
    ensures n <= TotalPages(n) * PageSize
    ensures n == 0 || (TotalPages(n) - 1) * PageSize < n
  {
  }

  /** `filtered.slice((page - 1) * pageSize, (page - 1) * pageSize + pageSize)`. */
  function Paged<T>(xs: seq<T>, page: nat): (r: seq<T>)
    requires page >= 1
    ensures |r| <= PageSize
    ensures (page - 1) * PageSize >= |xs| ==> r == []
    ensures (page - 1) * PageSize < |xs| ==>
      var start := (page - 1) * PageSize;
      r == xs[start..if start + PageSize <= |xs| then start + PageSize else |xs|]
  {
    var start := (page - 1) * PageSize;
    if start >= |xs| then [] else xs[start..if start + PageSize <= |xs| then start + PageSize else |xs|]
  }

  /** Every row is shown on exactly one page within the page count: row `i` is item
      `i % 10` of page `i / 10 + 1`. */
  lemma RowOnItsPage<T>(xs: seq<T>, i: nat)
    requires i < |xs|
    ensures var p := i / PageSize + 1;
      p <= TotalPages(|xs|) && i % PageSize < |Paged(xs, p)| && Paged(xs, p)[i % PageSize] == xs[i]
  {
    var p := i / PageSize + 1;
    assert (p - 1) * PageSize + i % PageSize == i;
    assert (p - 1) * PageSize <= i;
  }

  /** A page past the last one (the page is not reset when a filter changes) is empty. */
  lemma PastLastPageEmpty<T>(xs: seq<T>, page: nat)
    requires page > TotalPages(|xs|)
    ensures Paged(xs, page) == []
  {
    TotalPagesBounds(|xs|);
    assert (page - 1) * PageSize >= TotalPages(|xs|) * PageSize;
  }

  function PrevPage(page: nat): nat
  {
    if page <= 1 then 1 else page - 1
  }

  function NextPage(page: nat, total: nat): nat
  {
    if page + 1 <= total then page + 1 else total
  }

  /** Prev and Next keep a page within `[1, totalPages]`. */
  lemma PagingStaysInRange(page: nat, total: nat)
    requires 1 <= page <= total
    ensures 1 <= PrevPage(page) <= total && 1 <= NextPage(page, total) <= total
    ensures PrevPage(page) == (if page == 1 then 1 else page - 1)
    ensures NextPage(page, total) == (if page == total then total else page + 1)
  {
  }

  // ---------------------------------------------------------------- exams

  /** The `status` column written by the settings and new-exam forms. */
  function EncodeStatus(available: bool, blurred: bool): string
  {
    if available then (if blurred then "available_blurred" else "available") else "unavailable"
  }

  /** The settings form read back from a status: (available, blurred). */
  function DecodeStatus(status: string): (bool, bool)
  {
    var s := Lower(status);
    (s != "unavailable", Contains(s, "blur"))
  }

  /** How a status without capitals and without "blur" before position `n` decodes. */
  lemma DecodeLowercase(s: string, blurAt: int)
    requires forall i :: 0 <= i < |s| ==> !('A' <= s[i] <= 'Z')
    requires blurAt < 0 ==> forall i :: 0 <= i <= |s| - 4 ==> s[i] != 'b'
    requires blurAt >= 0 ==> SliceAt(s, "blur", blurAt)
    ensures DecodeStatus(s) == (s != "unavailable", blurAt >= 0)
  {
    LowerOfLowercase(s);
    if blurAt < 0 {
      NotContainsFirst(s, "blur");
    }
  }

  /** Saving and reloading the settings keeps "available" and keeps "blurred" only
      for an available exam: an unavailable one comes back unblurred. */
  lemma DecodeEncode(available: bool, blurred: bool)
    ensures DecodeStatus(EncodeStatus(available, blurred)) == (available, available && blurred)
  {
    if !available {
      DecodeUnavailable();
    } else if blurred {
      DecodeAvailableBlurred();
    } else {
      DecodeAvailable();
    }
  }

  lemma DecodeUnavailable()
    ensures DecodeStatus("unavailable") == (false, false)
  {
    DecodeLowercase("unavailable", -1);
  }

  lemma DecodeAvailableBlurred()
    ensures DecodeStatus("available_blurred") == (true, true)
  {
    DecodeLowercase("available_blurred", 10);
  }

  lemma DecodeAvailable()
    ensures DecodeStatus("available") == (true, false)
  {
    DecodeLowercase("available", -1);
  }

  predicate ExamIdChar(c: char)
  {
    'a' <= c <= 'z' || 'A' <= c <= 'Z' || '0' <= c <= '9' || c == '-' || c == '_'
  }

  /** `/^[a-zA-Z0-9-_]{1,64}$/`. */
  predicate ValidExamId(id: string)
  {
    1 <= |id| <= 64 && forall i :: 0 <= i < |id| ==> ExamIdChar(id[i])
  }

  /** An accepted id has no white space at its ends, so the trimmed id stored with
      the new exam is the one that was checked. */
  lemma ValidExamIdIsTrimmed(id: string)
    requires ValidExamId(id)
    ensures Trim(id) == id
  {
    assert !IsSpace(id[0]) && !IsSpace(id[|id| - 1]) by {
      assert ExamIdChar(id[0]) && ExamIdChar(id[|id| - 1]);
    }
    TrimOfTrimmed(id);
  }

  // ---------------------------------------------------------------- questions

  /** An `exam_questions` row. */
  datatype AdminQuestion = AdminQuestion(id: string, text: string, options: Option<seq<string>>,
                                         correct: Option<string>, orderIndex: int, value: Option<real>)

  function Orders(qs: seq<AdminQuestion>): (r: seq<int>)
    ensures |r| == |qs|
    ensures forall k :: 0 <= k < |qs| ==> r[k] == qs[k].orderIndex
  {
    if qs == [] then [] else [qs[0].orderIndex] + Orders(qs[1..])
  }

  function MaxOf(xs: seq<int>): (m: int)
    requires xs != []
    ensures m in xs
    ensures forall k :: 0 <= k < |xs| ==> xs[k] <= m
  {
    if |xs| == 1 then xs[0]
    else
      var m := MaxOf(xs[1..]);
      assert m in xs;
      if xs[0] > m then xs[0] else m
  }

  /** The order of a new question: one past the largest, or 1 for the first. */
  function NextOrder(qs: seq<AdminQuestion>): (r: int)
    ensures qs == [] ==> r == 1
    ensures forall k :: 0 <= k < |qs| ==> qs[k].orderIndex < r
    ensures qs != [] ==> exists k :: 0 <= k < |qs| && r == qs[k].orderIndex + 1
  {
    if qs == [] then 1
    else
      var m := MaxOf(Orders(qs));
      var k :| 0 <= k < |qs| && Orders(qs)[k] == m;
      m + 1
  }

  /** The two `order_index` updates of `moveUp`/`moveDown` for rows `i` and `j`. Each
      update may fail on its own; its error is not looked at. */
  function SwapOrders(qs: seq<AdminQuestion>, i: nat, j: nat, firstOk: bool, secondOk: bool): (r: seq<AdminQuestion>)
    requires i < |qs| && j < |qs|
    ensures |r| == |qs|
  {
    var a, b := qs[i], qs[j];
    var qs' := if firstOk then qs[i := a.(orderIndex := b.orderIndex)] else qs;
    if secondOk then qs'[j := b.(orderIndex := a.orderIndex)] else qs'
  }

  /** The exam's question list as the page holds it, in position order. */
  class QuestionList {
    var questions: seq<AdminQuestion>

    constructor (questions: seq<AdminQuestion>)
      ensures this.questions == questions
    {
      this.questions := questions;
    }

    /** `moveUp(index)`: the first row stays put; otherwise its order index is
        exchanged with the row above, one update per row. */
    method MoveUp(index: int, firstOk: bool, secondOk: bool)
      requires index < |questions|
      modifies this
      ensures index <= 0 ==> questions == old(questions)
      ensures index > 0 ==> questions == SwapOrders(old(questions), index - 1, index, firstOk, secondOk)
    {
      if index <= 0 {
        return;
      }
      Exchange(index - 1, index, firstOk, secondOk);
    }

    /** `moveDown(index)`: the last row stays put. */
    method MoveDown(index: nat, firstOk: bool, secondOk: bool)
      modifies this
      ensures index + 1 >= |old(questions)| ==> questions == old(questions)
      ensures index + 1 < |old(questions)| ==> questions == SwapOrders(old(questions), index, index + 1, firstOk, secondOk)
    {
      if index + 1 >= |questions| {
        return;
      }
      Exchange(index, index + 1, firstOk, secondOk);
    }

    /** Row `i` takes row `j`'s order index, then row `j` takes row `i`'s former one. */
    method Exchange(i: nat, j: nat, firstOk: bool, secondOk: bool)
      requires i < |questions| && j < |questions|
      modifies this
      ensures questions == SwapOrders(old(questions), i, j, firstOk, secondOk)
    {
      var a := questions[i];
      var b := questions[j];
      var tmp := a.orderIndex;
      if firstOk {
        questions := questions[i := a.(orderIndex := b.orderIndex)];
      }
      if secondOk {
        questions := questions[j := b.(orderIndex := tmp)];
      }
    }
  }

  /** Two successful updates exchange the two order indices; every row keeps its id
      and text, and the other rows are untouched. */
  lemma SwapExchanges(qs: seq<AdminQuestion>, i: nat, j: nat)
    requires i < j < |qs|
    ensures var r := SwapOrders(qs, i, j, true, true);
      && r[i].orderIndex == qs[j].orderIndex && r[j].orderIndex == qs[i].orderIndex
      && (forall k :: 0 <= k < |qs| ==> r[k].id == qs[k].id && r[k].text == qs[k].text)
      && (forall k :: 0 <= k < |qs| && k != i && k != j ==> r[k] == qs[k])
  {
  }

  /** Two successful updates leave the order indices, as a multiset, unchanged. */
  lemma SwapKeepsOrders(qs: seq<AdminQuestion>, i: nat, j: nat)
    requires i < j < |qs|
    ensures multiset(Orders(SwapOrders(qs, i, j, true, true))) == multiset(Orders(qs))
  {
    var r := SwapOrders(qs, i, j, true, true);
    OrdersOfSwap(qs, r, i, j);
    MultisetSwap(Orders(qs), i, j);
  }

  lemma OrdersOfSwap(qs: seq<AdminQuestion>, r: seq<AdminQuestion>, i: nat, j: nat)
    requires i < j < |qs| && r == SwapOrders(qs, i, j, true, true)
    ensures Orders(r) == Orders(qs)[i := Orders(qs)[j]][j := Orders(qs)[i]]
  {
    var o := Orders(qs);
    var t := o[i := o[j]][j := o[i]];
    var o' := Orders(r);
    forall k | 0 <= k < |qs|
      ensures o'[k] == t[k]
    {
    }
  }

  lemma MultisetSwap(o: seq<int>, i: nat, j: nat)
    requires i < j < |o|
    ensures multiset(o[i := o[j]][j := o[i]]) == multiset(o)
  {
    var t := o[i := o[j]];
    assert multiset(t) == multiset(o) - multiset{o[i]} + multiset{o[j]};
    assert t[j] == o[j];
    assert multiset(t[j := o[i]]) == multiset(t) - multiset{t[j]} + multiset{o[i]};
  }

  /** When only the first update goes through, both rows end up with the same index. */
  lemma HalfSwapDuplicates(qs: seq<AdminQuestion>, i: nat, j: nat)
    requires i < j < |qs|
    ensures var r := SwapOrders(qs, i, j, true, false);
      r[i].orderIndex == r[j].orderIndex == qs[j].orderIndex
  {
  }

  // ---------------------------------------------------------------- question forms

  /** Each entry trimmed, then the blank ones dropped (`.map(s => s.trim()).filter(Boolean)`). */
  function TrimAndDropBlank(opts: seq<string>): seq<string>
  {
    if opts == [] then []
    else if Trim(opts[0]) == "" then TrimAndDropBlank(opts[1..])
    else [Trim(opts[0])] + TrimAndDropBlank(opts[1..])
  }

  /** The kept options are the non-blank inputs, trimmed, and nothing else. */
  lemma {:induction false} TrimAndDropBlankFacts(opts: seq<string>)
    ensures var r := TrimAndDropBlank(opts);
      && |r| <= |opts|
      && (forall k :: 0 <= k < |r| ==> r[k] != "" && Trim(r[k]) == r[k])
      && (forall k :: 0 <= k < |opts| && Trim(opts[k]) != "" ==> Trim(opts[k]) in r)
      && (forall x :: x in r ==> exists k :: 0 <= k < |opts| && x == Trim(opts[k]))
  {
    if opts != [] {
      TrimIdempotent(opts[0]);
      TrimAndDropBlankFacts(opts[1..]);
      assert forall k :: 1 <= k < |opts| ==> opts[k] == opts[1..][k - 1];
    }
  }

  datatype FormError = EnterText | AnswerNotAnOption | TooFewOptions | NoCorrectOption | ChooseTrueOrFalse | EnterAnswer

  /** What the edit dialog writes. */
  datatype QuestionEdit = QuestionEdit(text: string, options: Option<seq<string>>, correct: string, value: Option<real>)

  datatype FormResult<T> = Rejected(error: FormError) | Accepted(value: T)

  /** `saveEditQ`: the trimmed text must be non-empty and, when any option is left,
      the answer (as typed, untrimmed) must be one of the trimmed options. */
  function SaveEdit(text: string, options: seq<string>, answer: string, value: Option<real>): (r: FormResult<QuestionEdit>)
    ensures r.Rejected? <==> Trim(text) == "" || (TrimAndDropBlank(options) != [] && answer !in TrimAndDropBlank(options))
    ensures r.Accepted? ==>
      && r.value.text == Trim(text) && r.value.correct == answer && r.value.value == value
      && (r.value.options.Some? ==> answer in r.value.options.value)
  {
    var stem := Trim(text);
    var opts := TrimAndDropBlank(options);
    if stem == "" then Rejected(EnterText)
    else if |opts| > 0 && answer !in opts then Rejected(AnswerNotAnOption)
    else Accepted(QuestionEdit(stem, if |opts| > 0 then Some(opts) else None, answer, value))
  }

  /** An answer with white space at an end never equals a trimmed option, so the edit
      is refused while any option is set. */
  lemma PaddedAnswerRejected(text: string, options: seq<string>, answer: string, value: Option<real>)
    requires Trim(answer) != answer && TrimAndDropBlank(options) != []
    ensures SaveEdit(text, options, answer, value).Rejected?
  {
    TrimAndDropBlankFacts(options);
  }

  datatype QuestionType = Mcq | TrueFalse | Short | FillBlank | Media

  /** The add-question form: the raw option inputs, the radio choice (an index into
      those inputs), the answer field as it stood when Add was pressed, the subject,
      bank and media fields, and the marks field once parsed (None when not finite). */
  datatype AddForm = AddForm(kind: QuestionType, text: string, optionInputs: seq<string>,
                             correctIndex: Option<nat>, answer: string,
                             category: string, bank: string, media: string, value: Option<real>)

  /** What the add form inserts. */
  datatype NewQuestion = NewQuestion(text: string, options: Option<seq<string>>, correct: Option<string>,
                                     orderIndex: int, value: Option<real>)

  function NonBlank(s: string): (r: Option<string>)
    ensures r.None? <==> Trim(s) == ""
    ensures r.Some? ==> r.value == Trim(s) && r.value != ""
  {
    if Trim(s) == "" then None else Some(Trim(s))
  }

  /** The tags put in front of the question text, separated by single spaces; a blank
      field adds no tag, and the media tag is only written for media questions. */
  function Tags(f: AddForm): string
  {
    var tags := (if f.category != "" then ["[category:" + f.category + "]"] else [])
              + (if f.bank != "" then ["[bank:" + f.bank + "]"] else [])
              + (if f.kind == Media && f.media != "" then ["[media:" + f.media + "]"] else []);
    Join(tags, ' ')
  }

  function TaggedText(f: AddForm, stem: string): string
  {
    Trim(Tags(f) + " " + stem)
  }

  /** Without subject, bank or media the stored text is the trimmed stem itself. */
  lemma UntaggedTextIsStem(f: AddForm)
    requires f.category == "" && f.bank == "" && (f.kind != Media || f.media == "")
    ensures TaggedText(f, Trim(f.text)) == Trim(f.text)
  {
    var stem := Trim(f.text);
    TrimIdempotent(f.text);
    assert Tags(f) == "";
    if stem != [] {
      TrimSpaceThenTrimmed(stem);
    }
  }

  lemma TrimSpaceThenTrimmed(stem: string)
    requires stem != [] && Trim(stem) == stem
    ensures Trim(" " + stem) == stem
  {
    TrimFacts(stem);
    assert !IsSpace(stem[0]) && !IsSpace(stem[|stem| - 1]);
    TrimStartAppend(" ", stem);
    TrimOfTrimmed(stem);
    assert TrimStart(" ") == TrimStart(" "[1..]);
    assert TrimStart(" " + stem) == TrimStart(stem);
  }

  /** The handler's checks by question type, shared by both versions below: the
      error, or the options to store (empty meaning none). */
  function CheckForm(f: AddForm, list: seq<string>, picked: bool): FormResult<seq<string>>
  {
    if Trim(f.text) == "" then Rejected(EnterText)
    else if f.kind == Mcq || f.kind == Media then
      if |list| < 2 then Rejected(TooFewOptions)
      else if !picked then Rejected(NoCorrectOption)
      else Accepted(list)
    else if f.kind == TrueFalse then
      if f.answer != "True" && f.answer != "False" then Rejected(ChooseTrueOrFalse)
      else Accepted(["True", "False"])
    else if Trim(f.answer) == "" then Rejected(EnterAnswer)
    else Accepted([])
  }

  /** The add-question handler as written: the radio index is used on the list left
      after blank options are dropped, and the answer stored is the answer field as it
      was before the handler picked the option (the state update is not yet visible). */
  function AddQuestionAsWritten(f: AddForm, qs: seq<AdminQuestion>): FormResult<NewQuestion>
  {
    var list := TrimAndDropBlank(f.optionInputs);
    var picked := f.correctIndex.Some? && f.correctIndex.value < |list|;
    match CheckForm(f, list, picked)
    case Rejected(e) => Rejected(e)
    case Accepted(opts) =>
      Accepted(NewQuestion(TaggedText(f, Trim(f.text)), if |opts| > 0 then Some(opts) else None,
                           NonBlank(f.answer), NextOrder(qs), f.value))
  }

  /** Options that are already trimmed and non-blank are kept as they are; a blank
      input in front is dropped. */
  lemma TwoOptions(p: string, l: string)
    requires p != "" && Trim(p) == p && l != "" && Trim(l) == l
    ensures TrimAndDropBlank([p, l]) == [p, l]
    ensures TrimAndDropBlank(["", p, l]) == [p, l]
  {
    var ls := [l];
    var pl := [p] + ls;
    assert ls[1..] == [];
    assert TrimAndDropBlank(ls) == ls;
    assert pl[1..] == ls;
    assert TrimAndDropBlank(pl) == pl;
    var epl := [""] + pl;
    assert epl[1..] == pl;
  }

  /** A plain multiple-choice form: no subject, bank or media, no marks. */
  function PlainMcq(stem: string, inputs: seq<string>, index: nat, answer: string): AddForm
  {
    AddForm(Mcq, stem, inputs, Some(index), answer, "", "", "", None)
  }

  /** With a blank first input (say `["", "Paris", "London"]` with "London" marked),
      the handler as written looks the radio index up in the shorter list and
      refuses the option the radio marks as out of range. */
  lemma AsWrittenRejectsLastOption(stem: string, p: string, l: string, answer: string)
    requires Trim(stem) != ""
    requires p != "" && Trim(p) == p && l != "" && Trim(l) == l
    ensures AddQuestionAsWritten(PlainMcq(stem, ["", p, l], 2, answer), []) == Rejected(NoCorrectOption)
  {
    TwoOptions(p, l);
  }

  /** Typing the options and then picking one leaves the answer field blank when the
      handler runs, so an accepted multiple-choice question is stored without a
      correct answer. */
  lemma AsWrittenDropsAnswer(stem: string, p: string, l: string)
    requires Trim(stem) != ""
    requires p != "" && Trim(p) == p && l != "" && Trim(l) == l
    ensures AddQuestionAsWritten(PlainMcq(stem, [p, l], 0, ""), [])
            == Accepted(NewQuestion(Trim(stem), Some([p, l]), None, 1, None))
  {
    TwoOptions(p, l);
    UntaggedTextIsStem(PlainMcq(stem, [p, l], 0, ""));
  }

  /** The add-question handler as intended: the radio index names one of the inputs,
      which must not be blank, and that option becomes the correct answer. */
  function AddQuestion(f: AddForm, qs: seq<AdminQuestion>): (r: FormResult<NewQuestion>)
    ensures r.Rejected? <==> CheckForm(f, TrimAndDropBlank(f.optionInputs), MarksOption(f)).Rejected?
    ensures r.Accepted? ==>
      && r.value.text == TaggedText(f, Trim(f.text)) && r.value.orderIndex == NextOrder(qs)
      && r.value.value == f.value && r.value.correct.Some?
    ensures r.Accepted? && (f.kind == Mcq || f.kind == Media) ==>
      && MarksOption(f)
      && r.value.options.Some? && |r.value.options.value| >= 2
      && r.value.correct == Some(Trim(f.optionInputs[f.correctIndex.value]))
      && r.value.correct.value in r.value.options.value
    ensures r.Accepted? && f.kind == TrueFalse ==>
      r.value.options == Some(["True", "False"]) && r.value.correct == Some(f.answer)
    ensures r.Accepted? && (f.kind == Short || f.kind == FillBlank) ==>
      r.value.options.None? && r.value.correct == Some(Trim(f.answer))
  {
    var list := TrimAndDropBlank(f.optionInputs);
    match CheckForm(f, list, MarksOption(f))
    case Rejected(e) => Rejected(e)
    case Accepted(opts) =>
      var correct :=
        if f.kind == Mcq || f.kind == Media then
          TrimAndDropBlankFacts(f.optionInputs);
          Trim(f.optionInputs[f.correctIndex.value])
        else if f.kind == TrueFalse then
          TrueFalseTrimmed();
          f.answer
        else Trim(f.answer);
      Accepted(NewQuestion(TaggedText(f, Trim(f.text)), if |opts| > 0 then Some(opts) else None,
                           Some(correct), NextOrder(qs), f.value))
  }

  /** The radio marks one of the inputs, and that input is not blank. */
  predicate MarksOption(f: AddForm)
  {
    f.correctIndex.Some? && f.correctIndex.value < |f.optionInputs|
    && Trim(f.optionInputs[f.correctIndex.value]) != ""
  }

  lemma TrueFalseTrimmed()
    ensures Trim("True") == "True" && Trim("False") == "False"
  {
    TrimOfTrimmed("True");
    TrimOfTrimmed("False");
  }

  /** The intended handler accepts the forms the handler as written gets wrong, with
      the marked option as the answer. */
  lemma IntendedAcceptsMarkedOption(stem: string, p: string, l: string, answer: string)
    requires Trim(stem) != ""
    requires p != "" && Trim(p) == p && l != "" && Trim(l) == l
    ensures AddQuestion(PlainMcq(stem, ["", p, l], 2, answer), [])
            == Accepted(NewQuestion(Trim(stem), Some([p, l]), Some(l), 1, None))
    ensures AddQuestion(PlainMcq(stem, [p, l], 0, ""), [])
            == Accepted(NewQuestion(Trim(stem), Some([p, l]), Some(p), 1, None))
  {
    TwoOptions(p, l);
    UntaggedTextIsStem(PlainMcq(stem, ["", p, l], 2, answer));
    UntaggedTextIsStem(PlainMcq(stem, [p, l], 0, ""));
  }

  // ---------------------------------------------------------------- CSV export and import

  /** A question as one CSV line carries it. */
  datatype CsvRow = CsvRow(text: string, options: Option<seq<string>>, correct: Option<string>)

  function OptionsField(options: Option<seq<string>>): string
  {
    if options.Some? then Join(options.value, '|') else ""
  }

  /** Export: text, options joined by `|`, and the answer (blank when null). */
  function ExportRow(q: AdminQuestion): string
  {
    q.text + "," + OptionsField(q.options) + "," + (if q.correct.Some? then q.correct.value else "")
  }

  function ExportRows(qs: seq<AdminQuestion>): (r: seq<string>)
    ensures |r| == |qs|
    ensures forall k :: 0 <= k < |qs| ==> r[k] == ExportRow(qs[k])
  {
    if qs == [] then [] else [ExportRow(qs[0])] + ExportRows(qs[1..])
  }

  /** The exported file: one line per question, in the order given. */
  function ExportFile(qs: seq<AdminQuestion>): string
  {
    Join(ExportRows(qs), '\n')
  }

  /** The import's lines: split at line feeds, trimmed, blank ones dropped. Trimming
      removes the carriage return of a CRLF line ending, so this is the same as
      splitting at an optional carriage return followed by a line feed. */
  function CsvLines(text: string): seq<string>
  {
    TrimAndDropBlank(Split(text, '\n'))
  }

  /** One import line: the first three comma-separated fields are the text, the
      options (split at `|`, trimmed, blanks dropped; none left means null) and the
      answer (trimmed; blank or missing means null); further fields are ignored. */
  function ParseCsvLine(line: string): CsvRow
  {
    var fields := Split(line, ',');
    var opts := TrimAndDropBlank(Split(if |fields| > 1 then fields[1] else "", '|'));
    CsvRow(Trim(fields[0]), if |opts| > 0 then Some(opts) else None,
           if |fields| > 2 then NonBlank(fields[2]) else None)
  }

  function ParseLines(lines: seq<string>): (r: seq<CsvRow>)
    ensures |r| == |lines|
  {
    if lines == [] then [] else [ParseCsvLine(lines[0])] + ParseLines(lines[1..])
  }

  function ImportFile(text: string): seq<CsvRow>
  {
    ParseLines(CsvLines(text))
  }

  function AsCsvRow(q: AdminQuestion): CsvRow
  {
    CsvRow(q.text, q.options, q.correct)
  }

  function AsCsvRows(qs: seq<AdminQuestion>): (r: seq<CsvRow>)
    ensures |r| == |qs|
    ensures forall k :: 0 <= k < |qs| ==> r[k] == AsCsvRow(qs[k])
  {
    if qs == [] then [] else [AsCsvRow(qs[0])] + AsCsvRows(qs[1..])
  }

  /** A field the format can carry: already trimmed, with no comma and no line feed. */
  predicate CsvField(s: string)
  {
    Trim(s) == s && ',' !in s && '\n' !in s
  }

  /** A question the export writes in a form the import reads back unchanged: its
      fields carry no separator, a present option list is non-empty and its options
      are non-blank and free of `|`, and a present answer is non-blank. */
  predicate CsvSafe(q: AdminQuestion)
  {
    && CsvField(q.text)
    && (q.options.Some? ==> OptionsSafe(q.options.value))
    && (q.correct.Some? ==> q.correct.value != "" && CsvField(q.correct.value))
  }

  predicate OptionsSafe(os: seq<string>)
  {
    os != [] && forall k :: 0 <= k < |os| ==> os[k] != "" && CsvField(os[k]) && '|' !in os[k]
  }

  /** Non-blank trimmed entries pass the trim-and-drop step unchanged. */
  lemma {:induction false} TrimAndDropBlankKeeps(xs: seq<string>)
    requires forall k :: 0 <= k < |xs| ==> xs[k] != "" && Trim(xs[k]) == xs[k]
    ensures TrimAndDropBlank(xs) == xs
  {
    if xs != [] {
      TrimAndDropBlankKeeps(xs[1..]);
    }
  }

  lemma OptionsFieldRoundTrip(options: Option<seq<string>>)
    requires options.Some? ==> OptionsSafe(options.value)
    ensures ',' !in OptionsField(options) && '\n' !in OptionsField(options)
    ensures var opts := TrimAndDropBlank(Split(OptionsField(options), '|'));
      (if |opts| > 0 then Some(opts) else None) == options
  {
    if options.Some? {
      NotInJoin(options.value, '|', ',');
      NotInJoin(options.value, '|', '\n');
      SplitJoin(options.value, '|');
      TrimAndDropBlankKeeps(options.value);
    } else {
      assert Split("", '|') == [""];
      TrimOfTrimmed("");
    }
  }

  /** Exporting a question and importing the line gives back its text, options and
      answer. */
  lemma CsvRowRoundTrip(q: AdminQuestion)
    requires CsvSafe(q)
    ensures ParseCsvLine(ExportRow(q)) == AsCsvRow(q)
  {
    var o := OptionsField(q.options);
    var a := if q.correct.Some? then q.correct.value else "";
    OptionsFieldRoundTrip(q.options);
    assert ExportRow(q) == q.text + [','] + o + [','] + a;
    Split3(q.text, o, a, ',');
    if q.correct.None? {
      TrimOfTrimmed("");
    }
  }

  /** An exported line has no line feed, is not blank and is already trimmed. */
  lemma ExportRowIsLine(q: AdminQuestion)
    requires CsvSafe(q)
    ensures var line := ExportRow(q); '\n' !in line && line != "" && Trim(line) == line
  {
    var o := OptionsField(q.options);
    var a := if q.correct.Some? then q.correct.value else "";
    OptionsFieldRoundTrip(q.options);
    var line := q.text + [','] + o + [','] + a;
    assert ExportRow(q) == line;
    assert '\n' !in q.text + [','] + o + [','];
    assert '\n' !in line;
    TrimmedEnds(q.text, o, a);
  }

  /** A comma-joined line whose two outer fields are trimmed is itself trimmed. */
  lemma TrimmedEnds(t: string, o: string, a: string)
    requires Trim(t) == t && Trim(a) == a
    ensures Trim(t + [','] + o + [','] + a) == t + [','] + o + [','] + a
  {
    var line := t + [','] + o + [','] + a;
    TrimFacts(t);
    TrimFacts(a);
    assert !IsSpace(',');
    assert line[0] == (if t == "" then ',' else t[0]);
    assert line[|line| - 1] == (if a == "" then ',' else a[|a| - 1]);
    TrimOfTrimmed(line);
  }

  /** The lines of an exported file are the exported rows. */
  lemma CsvLinesOfExport(qs: seq<AdminQuestion>)
    requires forall k :: 0 <= k < |qs| ==> CsvSafe(qs[k])
    ensures CsvLines(ExportFile(qs)) == ExportRows(qs)
  {
    var rows := ExportRows(qs);
    if qs == [] {
      assert ExportFile(qs) == "";
      assert Split("", '\n') == [""];
      TrimOfTrimmed("");
    } else {
      forall k | 0 <= k < |rows|
        ensures '\n' !in rows[k] && rows[k] != "" && Trim(rows[k]) == rows[k]
      {
        ExportRowIsLine(qs[k]);
      }
      SplitJoin(rows, '\n');
      TrimAndDropBlankKeeps(rows);
    }
  }

  /** Exporting a list of questions and importing the file gives back every
      question's text, options and answer, in order. */
  lemma CsvFileRoundTrip(qs: seq<AdminQuestion>)
    requires forall k :: 0 <= k < |qs| ==> CsvSafe(qs[k])
    ensures ImportFile(ExportFile(qs)) == AsCsvRows(qs)
  {
    CsvLinesOfExport(qs);
    ParseExportedRows(qs);
  }

  lemma {:induction false} ParseExportedRows(qs: seq<AdminQuestion>)
    requires forall k :: 0 <= k < |qs| ==> CsvSafe(qs[k])
    ensures ParseLines(ExportRows(qs)) == AsCsvRows(qs)
  {
    if qs != [] {
      CsvRowRoundTrip(qs[0]);
      ParseExportedRows(qs[1..]);
      assert ExportRows(qs)[1..] == ExportRows(qs[1..]);
    }
  }

  /** A parsed line as the import inserts it, with the given order. */
  function Inserted(row: CsvRow, order: int): NewQuestion
  {
    NewQuestion(row.text, row.options, row.correct, order, None)
  }

  /** The rows an import inserts from the first `n` parsed lines: line k is given
      order `base + k`; a line whose insert fails is missing but still uses up its
      order. */
  function Imported(rows: seq<CsvRow>, base: int, oks: seq<bool>, n: nat): seq<NewQuestion>
    requires |oks| == |rows| && n <= |rows|
  {
    if n == 0 then []
    else Imported(rows, base, oks, n - 1) + (if oks[n - 1] then [Inserted(rows[n - 1], base + n - 1)] else [])
  }

  /** How many of the first `n` inserts succeeded. */
  function CountTrue(oks: seq<bool>, n: nat): nat
    requires n <= |oks|
  {
    if n == 0 then 0 else CountTrue(oks, n - 1) + (if oks[n - 1] then 1 else 0)
  }

  /** The import of a file: its kept lines inserted one by one; `oks[k]` is whether
      the insert of line k succeeded. Returns the count of successful inserts and
      the rows inserted. (Each line is parsed before the inserts start; parsing
      has no effect, so this is the same as parsing each line just before its
      insert.) */
  method ImportCsv(text: string, qs: seq<AdminQuestion>, oks: seq<bool>) returns (count: nat, inserted: seq<NewQuestion>)
    requires |oks| == |CsvLines(text)|
    ensures inserted == Imported(ImportFile(text), NextOrder(qs), oks, |oks|)
    ensures count == |inserted| == CountTrue(oks, |oks|)
  {
    var rows := ImportFile(text);
    count, inserted := InsertRows(rows, NextOrder(qs), oks);
  }

  /** The `for…of` over the lines: the offset advances on every line, the count
      only on a successful insert. */
  method InsertRows(rows: seq<CsvRow>, baseOrder: int, oks: seq<bool>) returns (count: nat, inserted: seq<NewQuestion>)
    requires |oks| == |rows|
    ensures inserted == Imported(rows, baseOrder, oks, |oks|)
    ensures count == |inserted| == CountTrue(oks, |oks|)
  {
    count := 0;
    inserted := [];
    var offset := 0;
    while offset < |rows|
      invariant 0 <= offset <= |rows|
      invariant inserted == Imported(rows, baseOrder, oks, offset)
      invariant count == |inserted| == CountTrue(oks, offset)
    {
      if oks[offset] {
        inserted := inserted + [Inserted(rows[offset], baseOrder + offset)];
        count := count + 1;
      }
      offset := offset + 1;
    }
  }

  /** Imported rows keep the file's order and carry orders from `base` up, with a
      gap for each failed line. */
  lemma {:induction false} ImportedOrders(rows: seq<CsvRow>, base: int, oks: seq<bool>, n: nat)
    requires |oks| == |rows| && n <= |rows|
    ensures var r := Imported(rows, base, oks, n);
      && |r| == CountTrue(oks, n)
      && (forall k :: 0 <= k < |r| ==> base <= r[k].orderIndex < base + n)
      && (forall a, b :: 0 <= a < b < |r| ==> r[a].orderIndex < r[b].orderIndex)
  {
    if n > 0 {
      ImportedOrders(rows, base, oks, n - 1);
    }
  }

  /** When every insert succeeds, line k becomes the question with order `base + k`. */
  lemma {:induction false} ImportAllOk(rows: seq<CsvRow>, base: int, oks: seq<bool>, n: nat)
    requires |oks| == |rows| && n <= |rows| && forall k :: 0 <= k < |oks| ==> oks[k]
    ensures var r := Imported(rows, base, oks, n);
      && |r| == n
      && forall k :: 0 <= k < n ==> r[k] == Inserted(rows[k], base + k)
  {
    if n > 0 {
      ImportAllOk(rows, base, oks, n - 1);
    }
  }

  /** Importing an exported file into an exam whose inserts all succeed adds every
      exported question again, in order, after the existing ones. */
  lemma ReimportExport(qs: seq<AdminQuestion>, existing: seq<AdminQuestion>, oks: seq<bool>)
    requires forall k :: 0 <= k < |qs| ==> CsvSafe(qs[k])
    requires |oks| == |qs| && forall k :: 0 <= k < |oks| ==> oks[k]
    ensures |CsvLines(ExportFile(qs))| == |qs|
    ensures var r := Imported(ImportFile(ExportFile(qs)), NextOrder(existing), oks, |qs|);
      |r| == |qs| && forall k :: 0 <= k < |qs| ==> r[k] == Inserted(AsCsvRow(qs[k]), NextOrder(existing) + k)
    ensures var r := Imported(ImportFile(ExportFile(qs)), NextOrder(existing), oks, |qs|);
      forall k, e :: 0 <= k < |r| && 0 <= e < |existing| ==> existing[e].orderIndex < r[k].orderIndex
  {
    CsvLinesOfExport(qs);
    CsvFileRoundTrip(qs);
    var rows := AsCsvRows(qs);
    var base := NextOrder(existing);
    ImportAllOk(rows, base, oks, |qs|);
    var r := Imported(rows, base, oks, |qs|);
    assert Imported(ImportFile(ExportFile(qs)), base, oks, |qs|) == r;
    forall k | 0 <= k < |qs|
      ensures r[k] == Inserted(AsCsvRow(qs[k]), base + k)
    {
      assert rows[k] == AsCsvRow(qs[k]);
    }
    forall k, e | 0 <= k < |r| && 0 <= e < |existing|
      ensures existing[e].orderIndex < r[k].orderIndex
    {
      assert r[k].orderIndex == base + k;
    }
  }

  // ---------------------------------------------------------------- retake flags

  /** The map with every id of `ids` set to `v`. */
  function SetAll(m: map<string, bool>, ids: seq<string>, v: bool): map<string, bool>
  {
    if ids == [] then m else SetAll(m, ids[..|ids| - 1], v)[ids[|ids| - 1] := v]
  }

  /** The selected ids, and no others, take the value. */
  lemma {:induction false} SetAllFacts(m: map<string, bool>, ids: seq<string>, v: bool)
    ensures forall id :: id in SetAll(m, ids, v) <==> id in m || id in ids
    ensures forall id :: id in ids ==> SetAll(m, ids, v)[id] == v
    ensures forall id :: id in m && id !in ids ==> SetAll(m, ids, v)[id] == m[id]
  {
    if ids != [] {
      SetAllFacts(m, ids[..|ids| - 1], v);
      assert forall id :: id in ids <==> id in ids[..|ids| - 1] || id == ids[|ids| - 1];
    }
  }

  /** The `exam_retake` rows after the first `n` calls of a bulk action: an enable
      upserts the row, a disable deletes it, and a failed call changes nothing. */
  function BulkRows(rows: map<Key, bool>, examId: string, ids: seq<string>, oks: seq<bool>, enable: bool, n: nat): map<Key, bool>
    requires |oks| == |ids| && n <= |ids|
  {
    if n == 0 then rows
    else
      var prev := BulkRows(rows, examId, ids, oks, enable, n - 1);
      var k := Key(examId, ids[n - 1]);
      if !oks[n - 1] then prev else if enable then prev[k := true] else prev - {k}
  }

  /** A bulk action reaches only the rows of the chosen exam and the selected ids; when
      every call succeeds each selected id ends enabled (or without a row). */
  lemma {:induction false} BulkRowsFacts(rows: map<Key, bool>, examId: string, ids: seq<string>, oks: seq<bool>, enable: bool, n: nat)
    requires |oks| == |ids| && n <= |ids|
    ensures var r := BulkRows(rows, examId, ids, oks, enable, n);
      forall k: Key :: (k.examId != examId || k.admissionId !in ids[..n]) ==>
        (k in r <==> k in rows) && (k in rows ==> r[k] == rows[k])
    ensures var r := BulkRows(rows, examId, ids, oks, enable, n);
      (forall j :: 0 <= j < n ==> oks[j]) ==>
        forall j :: 0 <= j < n ==> if enable then Key(examId, ids[j]) in r && r[Key(examId, ids[j])]
                                   else Key(examId, ids[j]) !in r
  {
    if n > 0 {
      BulkRowsFacts(rows, examId, ids, oks, enable, n - 1);
      assert forall id :: id in ids[..n] <==> id in ids[..n - 1] || id == ids[n - 1];
    }
  }

  /** The reason an administrator's flag files when none is given. */
  const DefaultFlagReason := "Flagged by admin - detected cheating"

  /** The students list without the given id, in order. */
  function Without(ss: seq<Student>, admissionId: string): (r: seq<Student>)
    ensures |r| <= |ss|
    ensures forall x :: x in r <==> x in ss && x.admissionId != admissionId
  {
    if ss == [] then []
    else
      assert forall x :: x in ss <==> x == ss[0] || x in ss[1..];
      (if ss[0].admissionId != admissionId then [ss[0]] else []) + Without(ss[1..], admissionId)
  }

  /** The student table's local state: the students fetched and the retake flags
      fetched for the exam shown, which the actions below update in place. */
  class AdminPanel {
    var students: seq<Student>
    /** `retakeEnabledMap`: admission id to the retake flag. */
    var retakeView: map<string, bool>

    constructor (students: seq<Student>, retakeView: map<string, bool>)
      ensures this.students == students && this.retakeView == retakeView
    {
      this.students := students;
      this.retakeView := retakeView;
    }

    /** `enableRetake`: an upsert, and a plain insert when the upsert fails; the
        flag is shown as enabled only when one of them went through. */
    method EnableRetake(db: Backend, admissionId: string, examId: string, upsertOk: bool, insertOk: bool)
      returns (enabled: bool)
      modifies this, db
      ensures enabled <==> upsertOk || (insertOk && Key(examId, admissionId) !in old(db.retake))
      ensures db.retake == if enabled then old(db.retake)[Key(examId, admissionId) := true] else old(db.retake)
      ensures db.submissions == old(db.submissions) && db.incidents == old(db.incidents)
      ensures retakeView == if enabled then old(retakeView)[admissionId := true] else old(retakeView)
      ensures students == old(students)
    {
      var k := Key(examId, admissionId);
      db.EnableRetakeRow(k, upsertOk);
      enabled := upsertOk;
      if !upsertOk {
        enabled := db.InsertRetakeRow(k, insertOk);
      }
      if enabled {
        retakeView := retakeView[admissionId := true];
      }
    }

    /** `disableRetake`: the row is deleted and, on success, shown as disabled. */
    method DisableRetake(db: Backend, admissionId: string, examId: string, ok: bool)
      modifies this, db
      ensures db.retake == if ok then old(db.retake) - {Key(examId, admissionId)} else old(db.retake)
      ensures db.submissions == old(db.submissions) && db.incidents == old(db.incidents)
      ensures retakeView == if ok then old(retakeView)[admissionId := false] else old(retakeView)
      ensures students == old(students)
    {
      var k := Key(examId, admissionId);
      db.DeleteRetakeRow(k, ok);
      if ok {
        retakeView := retakeView[admissionId := false];
      }
    }

    /** `flagIncident`: an incident is filed; only when that succeeds is the retake
        row deleted, the flag shown as disabled and a submission's score set to 0
        (those two calls may fail without effect on the rest). */
    method FlagIncident(db: Backend, admissionId: string, examId: string, reason: string,
                        insertOk: bool, deleteOk: bool, updateOk: bool)
      modifies this, db
      ensures var k := Key(examId, admissionId);
        db.incidents == if insertOk then old(db.incidents)[k := (if k in old(db.incidents) then old(db.incidents)[k] else []) + [reason]]
                        else old(db.incidents)
      ensures var k := Key(examId, admissionId);
        db.retake == if insertOk && deleteOk then old(db.retake) - {k} else old(db.retake)
      ensures var k := Key(examId, admissionId);
        db.submissions == if insertOk && updateOk && k in old(db.submissions)
                          then old(db.submissions)[k := old(db.submissions)[k].(score := 0.0)]
                          else old(db.submissions)
      ensures retakeView == if insertOk then old(retakeView)[admissionId := false] else old(retakeView)
      ensures students == old(students)
    {
      var k := Key(examId, admissionId);
      db.InsertIncident(k, reason, insertOk);
      if insertOk {
        db.DeleteRetakeRow(k, deleteOk);
        retakeView := retakeView[admissionId := false];
        db.ZeroScore(k, updateOk);
      }
    }

    /** `deleteUser` once confirmed and every delete has succeeded: the student
        leaves the list and the retake flag is dropped. */
    method DeleteUser(admissionId: string, confirmed: bool, deletesOk: bool) returns (deleted: bool)
      modifies this
      ensures deleted == (confirmed && deletesOk)
      ensures students == if deleted then Without(old(students), admissionId) else old(students)
      ensures retakeView == if deleted then old(retakeView) - {admissionId} else old(retakeView)
    {
      deleted := confirmed && deletesOk;
      if deleted {
        students := Without(students, admissionId);
        retakeView := retakeView - {admissionId};
      }
    }

    /** The bulk bar's enable and disable buttons: one call per selected id, whose
        results are not looked at, then every selected id shown with the new flag. */
    method BulkSet(db: Backend, selected: seq<string>, examId: string, oks: seq<bool>, enable: bool)
      requires |oks| == |selected|
      modifies this, db
      ensures db.retake == BulkRows(old(db.retake), examId, selected, oks, enable, |selected|)
      ensures db.submissions == old(db.submissions) && db.incidents == old(db.incidents)
      ensures retakeView == SetAll(old(retakeView), selected, enable)
      ensures students == old(students)
    {
      ghost var rows := db.retake;
      var i := 0;
      while i < |selected|
        invariant 0 <= i <= |selected|
        invariant db.retake == BulkRows(rows, examId, selected, oks, enable, i)
        invariant db.submissions == old(db.submissions) && db.incidents == old(db.incidents)
        invariant retakeView == old(retakeView) && students == old(students)
      {
        var k := Key(examId, selected[i]);
        if enable {
          db.EnableRetakeRow(k, oks[i]);
        } else {
          db.DeleteRetakeRow(k, oks[i]);
        }
        i := i + 1;
      }
      i := 0;
      while i < |selected|
        invariant 0 <= i <= |selected|
        invariant retakeView == SetAll(old(retakeView), selected[..i], enable)
        invariant db.retake == BulkRows(rows, examId, selected, oks, enable, |selected|)
        invariant db.submissions == old(db.submissions) && db.incidents == old(db.incidents)
        invariant students == old(students)
      {
        assert selected[..i + 1][..i] == selected[..i];
        retakeView := retakeView[selected[i] := enable];
        i := i + 1;
      }
      assert selected[..i] == selected;
    }
  }

  /** The shown flag can run ahead of the table: a bulk enable whose call for an id
      failed still shows that id as enabled, while its row is unchanged. */
  lemma BulkViewIgnoresFailures(view: map<string, bool>, rows: map<Key, bool>, examId: string, id: string)
    ensures SetAll(view, [id], true)[id]
    ensures BulkRows(rows, examId, [id], [false], true, 1) == rows
  {
    SetAllFacts(view, [id], true);
  }

  /** After a flag the student appears under the retake-disabled filter, and after a
      delete no student with that id is left. */
  lemma FlaggedListedAsDisabled(view: map<string, bool>, s: Student, query: string, section: Option<string>)
    requires MatchesQuery(s, query) && MatchesSection(s, section)
    ensures Keeps(StudentFilter(query, section, RetakeDisabled), view[s.admissionId := false], s)
    ensures !Keeps(StudentFilter(query, section, RetakeEnabled), view[s.admissionId := false], s)
  {
  }

  // ---------------------------------------------------------------- answer tally

  /** Whether a submission's answers (None when they do not parse) give `answer` to
      question `qid`. */
  predicate Holds(s: Option<map<string, string>>, qid: string, answer: string)
  {
    s.Some? && qid in s.value && s.value[qid] == answer
  }

  /** How many of the first `n` submissions hold the pair. */
  function Tally(subs: seq<Option<map<string, string>>>, n: nat, qid: string, answer: string): nat
    requires n <= |subs|
  {
    if n == 0 then 0 else Tally(subs, n - 1, qid, answer) + (if Holds(subs[n - 1], qid, answer) then 1 else 0)
  }

  /** Whether one of the first `n` submissions answers question `qid` at all. */
  predicate Asked(subs: seq<Option<map<string, string>>>, n: nat, qid: string)
    requires n <= |subs|
  {
    exists j :: 0 <= j < n && subs[j].Some? && qid in subs[j].value
  }

  /** `itemStats[qid][answer]`, 0 when either key is missing. */
  function Stat(stats: map<string, map<string, nat>>, qid: string, answer: string): nat
  {
    if qid in stats && answer in stats[qid] then stats[qid][answer] else 0
  }

  /** One more submission giving `chosen` to `qid`. */
  function Bump(stats: map<string, map<string, nat>>, qid: string, chosen: string): map<string, map<string, nat>>
  {
    var row := if qid in stats then stats[qid] else map[];
    stats[qid := row[chosen := (if chosen in row then row[chosen] else 0) + 1]]
  }

  lemma BumpFacts(stats: map<string, map<string, nat>>, qid: string, chosen: string)
    ensures forall q, a :: Stat(Bump(stats, qid, chosen), q, a) == Stat(stats, q, a) + (if q == qid && a == chosen then 1 else 0)
    ensures forall q :: q in Bump(stats, qid, chosen) <==> q in stats || q == qid
    ensures (forall q, a :: q in stats && a in stats[q] ==> stats[q][a] > 0) ==>
            forall q, a :: q in Bump(stats, qid, chosen) && a in Bump(stats, qid, chosen)[q] ==> Bump(stats, qid, chosen)[q][a] > 0
  {
  }

  predicate Positive(stats: map<string, map<string, nat>>)
  {
    forall q, a :: q in stats && a in stats[q] ==> stats[q][a] > 0
  }

  /** The `forEach` over one submission's answers: each pair counted once. */
  method CountAnswers(stats: map<string, map<string, nat>>, ans: map<string, string>) returns (r: map<string, map<string, nat>>)
    requires Positive(stats)
    ensures forall q, a :: Stat(r, q, a) == Stat(stats, q, a) + (if q in ans && ans[q] == a then 1 else 0)
    ensures forall q :: q in r <==> q in stats || q in ans
    ensures Positive(r)
  {
    r := stats;
    var todo := ans.Keys;
    while todo != {}
      invariant todo <= ans.Keys
      invariant forall q, a :: Stat(r, q, a) == Stat(stats, q, a) + (if q in ans && q !in todo && ans[q] == a then 1 else 0)
      invariant forall q :: q in r <==> q in stats || (q in ans && q !in todo)
      invariant Positive(r)
      decreases |todo|
    {
      var qid :| qid in todo;
      BumpFacts(r, qid, ans[qid]);
      r := Bump(r, qid, ans[qid]);
      todo := todo - {qid};
    }
  }

  /** `itemStats`: for every question and answer, the number of submissions that
      gave that answer; a question is listed exactly when some submission answered
      it, and no listed count is zero. */
  method ItemStats(subs: seq<Option<map<string, string>>>) returns (stats: map<string, map<string, nat>>)
    ensures forall qid, answer :: Stat(stats, qid, answer) == Tally(subs, |subs|, qid, answer)
    ensures forall qid :: qid in stats <==> Asked(subs, |subs|, qid)
    ensures Positive(stats)
  {
    stats := map[];
    var i := 0;
    while i < |subs|
      invariant 0 <= i <= |subs|
      invariant forall qid, answer :: Stat(stats, qid, answer) == Tally(subs, i, qid, answer)
      invariant forall qid :: qid in stats <==> Asked(subs, i, qid)
      invariant Positive(stats)
    {
      AskedStep(subs, i);
      if subs[i].Some? {
        stats := CountAnswers(stats, subs[i].value);
      }
      i := i + 1;
    }
  }

  lemma AskedStep(subs: seq<Option<map<string, string>>>, i: nat)
    requires i < |subs|
    ensures forall qid :: Asked(subs, i + 1, qid) <==> Asked(subs, i, qid) || (subs[i].Some? && qid in subs[i].value)
  {
  }
}
