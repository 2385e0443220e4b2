/** The script that reloads the bundled verbal-reasoning questions into the question
    table: delete the exam's rows, then insert the mapped questions twenty at a time,
    stopping at the first failed insert. */
module ImportQuestions {
  const ExamId := "00SAT2025"
  const BatchSize := 20
  const PointValue := 2.5

  /** A question as bundled with the app. */
  datatype SourceQuestion = SourceQuestion(id: string, text: string, options: seq<string>, correct: string)

  /** A row of the question table. */
  datatype QuestionRow = QuestionRow(examId: string, text: string, options: seq<string>, correct: string,
                                     orderIndex: nat, value: real)

  /** The `map` over the bundled questions: question `i` gets order `i + 1`, the fixed
      exam id and 2.5 points; text, options and answer are copied. */
  function MapQuestions(qs: seq<SourceQuestion>): (rows: seq<QuestionRow>)
    ensures |rows| == |qs|
  {
    seq(|qs|, i requires 0 <= i < |qs| => QuestionRow(ExamId, qs[i].text, qs[i].options, qs[i].correct, i + 1, PointValue))
  }

  /** Every row carries its question's content, the exam id and the point value, and
      the orders run 1, 2, ... without gaps. */
  lemma MappedRows(qs: seq<SourceQuestion>)
    ensures forall i :: 0 <= i < |qs| ==>
      var r := MapQuestions(qs)[i];
      r.text == qs[i].text && r.options == qs[i].options && r.correct == qs[i].correct
      && r.examId == ExamId && r.value == 2.5 && r.orderIndex == i + 1
    ensures forall i, j :: 0 <= i < j < |qs| ==> MapQuestions(qs)[i].orderIndex < MapQuestions(qs)[j].orderIndex
  {
  }

  /** The slices `rows[i..i + 20]` for `i = 0, 20, 40, ...`. */
  function Batches(rows: seq<QuestionRow>): seq<seq<QuestionRow>>
    decreases |rows|
  {
    if rows == [] then []
    else if |rows| <= BatchSize then [rows]
    else [rows[..BatchSize]] + Batches(rows[BatchSize..])
  }

  function Flatten(bs: seq<seq<QuestionRow>>): seq<QuestionRow>
  {
    if bs == [] then [] else bs[0] + Flatten(bs[1..])
  }

  lemma {:induction false} FlattenAppend(bs: seq<seq<QuestionRow>>, b: seq<QuestionRow>)
    ensures Flatten(bs + [b]) == Flatten(bs) + b
  {
    if bs != [] {
      assert (bs + [b])[1..] == bs[1..] + [b];
      FlattenAppend(bs[1..], b);
    }
  }

  /** The batches put back together are the rows; there are ceil(n/20) of them, and
      none is empty or longer than 20. */
  lemma {:induction false} BatchesFacts(rows: seq<QuestionRow>)
    ensures Flatten(Batches(rows)) == rows
    ensures |Batches(rows)| == (|rows| + BatchSize - 1) / BatchSize
    ensures forall k :: 0 <= k < |Batches(rows)| ==> 0 < |Batches(rows)[k]| <= BatchSize
    decreases |rows|
  {
    if |rows| > BatchSize {
      BatchesFacts(rows[BatchSize..]);
      var bs := Batches(rows);
      assert bs[1..] == Batches(rows[BatchSize..]);
      assert rows == rows[..BatchSize] + rows[BatchSize..];
    }
  }

  /** Batch `k` is the slice from `20k`, at most 20 long. */
  lemma {:induction false} BatchAt(rows: seq<QuestionRow>, k: nat)
    requires k < |Batches(rows)|
    ensures BatchSize * k < |rows|
    ensures Batches(rows)[k] == rows[BatchSize * k .. if BatchSize * k + BatchSize <= |rows| then BatchSize * k + BatchSize else |rows|]
    decreases |rows|
  {
    if k > 0 {
      var rest := rows[BatchSize..];
      BatchAt(rest, k - 1);
      assert rows[BatchSize * k ..] == rest[BatchSize * (k - 1) ..];
    }
  }

  /** The position of the first failure, or `|oks|` when there is none. */
  function FirstFailure(oks: seq<bool>): (r: nat)
    ensures r <= |oks|
    ensures forall i :: 0 <= i < r ==> oks[i]
    ensures r < |oks| ==> !oks[r]
  {
    if oks == [] then 0 else if !oks[0] then 0 else 1 + FirstFailure(oks[1..])
  }

  /** Adding batch `b` to the first `b` batches. */
  lemma FlattenStep(bs: seq<seq<QuestionRow>>, b: nat)
    requires b < |bs|
    ensures Flatten(bs[..b + 1]) == Flatten(bs[..b]) + bs[b]
  {
    assert bs[..b + 1] == bs[..b] + [bs[b]];
    FlattenAppend(bs[..b], bs[b]);
  }

  /** The loop index `20b` is still inside the rows exactly while batches remain. */
  lemma BatchBound(rows: seq<QuestionRow>, b: nat)
    ensures BatchSize * b < |rows| <==> b < |Batches(rows)|
  {
    BatchesFacts(rows);
  }

  datatype Outcome = DeleteFailed | BatchFailed(batch: nat) | Imported

  /** `main` after the question data is loaded. `existing` is the exam's rows in the
      table, `deleteOk` whether the delete succeeded and `batchOk[k]` whether the
      insert of batch `k` did; the result is the exam's rows afterwards. */
  method Import(qs: seq<SourceQuestion>, existing: seq<QuestionRow>, deleteOk: bool, batchOk: seq<bool>)
      returns (outcome: Outcome, table: seq<QuestionRow>)
    requires |batchOk| == |Batches(MapQuestions(qs))|
    ensures !deleteOk ==> outcome == DeleteFailed && table == existing
    ensures deleteOk ==>
      var k := FirstFailure(batchOk);
      table == Flatten(Batches(MapQuestions(qs))[..k])
      && outcome == (if k == |batchOk| then Imported else BatchFailed(k))
  {
    if !deleteOk {
      return DeleteFailed, existing;
    }
    table := [];
    var rows := MapQuestions(qs);
    ghost var bs := Batches(rows);
    var i := 0;
    var b := 0;
    BatchBound(rows, 0);
    while i < |rows|
      invariant 0 <= b <= |bs| && i == BatchSize * b
      invariant i < |rows| <==> b < |bs|
      invariant forall j :: 0 <= j < b ==> batchOk[j]
      invariant table == Flatten(bs[..b])
      decreases |rows| - i
    {
      BatchAt(rows, b);
      var end := if i + BatchSize <= |rows| then i + BatchSize else |rows|;
      var batch := rows[i..end];
      if !batchOk[b] {
        return BatchFailed(b), table;
      }
      FlattenStep(bs, b);
      table := table + batch;
      i := i + BatchSize;
      b := b + 1;
      BatchBound(rows, b);
    }
    BatchesFacts(rows);
    assert bs[..|bs|] == bs;
    outcome := Imported;
  }
}
