/** The hosted database as the pages see it: three tables keyed by
    (exam id, admission id). A call's failure is an oracle argument; an insert also
    fails on the unique key `(exam_id, admission_id)` of `exam_submissions`. */
module Store {
  import opened Base

  /** An `exam_submissions` row, or a payload written to it. `status` is absent from
      payloads that do not set the column. */
  datatype Submission = Submission(score: real, total: real, answers: map<string, string>, status: Option<string>)

  /** An upsert or an update writes the payload's columns and keeps the others. */
  function Merge(old_: Submission, p: Submission): (r: Submission)
    ensures r.score == p.score && r.total == p.total && r.answers == p.answers
    ensures r.status == (if p.status.Some? then p.status else old_.status)
  {
    p.(status := if p.status.Some? then p.status else old_.status)
  }

  /** A payload without a status, such as the quiz player's, leaves the row's status
      as it was: a submission already marked completed stays completed. */
  lemma StatuslessPayloadKeepsStatus(stored: Submission, p: Submission)
    requires p.status.None?
    ensures Merge(stored, p).status == stored.status
    ensures Merge(stored, p) == stored.(score := p.score, total := p.total, answers := p.answers)
  {
  }

  class Backend {
    var submissions: map<Key, Submission>
    /** `exam_incidents`: the reasons filed for a key, oldest first. */
    var incidents: map<Key, seq<string>>
    /** `exam_retake.enabled` per key. */
    var retake: map<Key, bool>

    constructor (submissions: map<Key, Submission>, incidents: map<Key, seq<string>>, retake: map<Key, bool>)
      ensures this.submissions == submissions && this.incidents == incidents && this.retake == retake
    {
      this.submissions := submissions;
      this.incidents := incidents;
      this.retake := retake;
    }

    /** Looking up the submission of a key; `ok` is false when the call fails. */
    function SubmissionLookup(k: Key, ok: bool): (r: Lookup<Submission>)
      reads this
      ensures r.Failed? <==> !ok
      ensures r.Found? <==> ok && k in submissions
      ensures r.Found? ==> r.row == submissions[k]
    {
      if !ok then Failed else if k in submissions then Found(submissions[k]) else NotFound
    }

    /** An unordered `limit(1)` lookup of an incident reason. The order is up to the
        database, so which of the key's rows comes back is an oracle argument: `pick`,
        taken modulo the number of rows. */
    function FirstIncident(k: Key, ok: bool, pick: nat): (r: Lookup<string>)
      reads this
      ensures r.Failed? <==> !ok
      ensures r.Found? <==> ok && k in incidents && |incidents[k]| > 0
      ensures r.Found? ==> r.row in incidents[k]
      ensures r.Found? && pick < |incidents[k]| ==> r.row == incidents[k][pick]
    {
      if !ok then Failed
      else if k in incidents && |incidents[k]| > 0 then Found(incidents[k][pick % |incidents[k]|])
      else NotFound
    }

    /** A lookup ordered by `created_at` descending: the newest row. */
    function LatestIncident(k: Key, ok: bool): (r: Lookup<string>)
      reads this
      ensures r.Failed? <==> !ok
      ensures r.Found? <==> ok && k in incidents && |incidents[k]| > 0
      ensures r.Found? ==> r.row == incidents[k][|incidents[k]| - 1]
    {
      if !ok then Failed
      else if k in incidents && |incidents[k]| > 0 then Found(incidents[k][|incidents[k]| - 1])
      else NotFound
    }

    /** The retake override: a failed lookup or a missing row counts as "not enabled". */
    predicate RetakeEnabled(k: Key, ok: bool)
      reads this
    {
      ok && k in retake && retake[k]
    }

    method InsertSubmission(k: Key, p: Submission, ok: bool) returns (success: bool)
      modifies this
      ensures success <==> ok && k !in old(submissions)
      ensures submissions == if success then old(submissions)[k := p] else old(submissions)
      ensures incidents == old(incidents) && retake == old(retake)
    {
      success := ok && k !in submissions;
      if success {
        submissions := submissions[k := p];
      }
    }

    /** Insert, or on a key conflict write the payload over the existing row. */
    method UpsertSubmission(k: Key, p: Submission, ok: bool) returns (success: bool)
      modifies this
      ensures success == ok
      ensures submissions == if !ok then old(submissions)
                             else if k in old(submissions) then old(submissions)[k := Merge(old(submissions)[k], p)]
                             else old(submissions)[k := p]
      ensures incidents == old(incidents) && retake == old(retake)
    {
      success := ok;
      if ok {
        if k in submissions {
          submissions := submissions[k := Merge(submissions[k], p)];
        } else {
          submissions := submissions[k := p];
        }
      }
    }

    /** Update the row found earlier; a row that is gone is not recreated. */
    method UpdateSubmission(k: Key, p: Submission, ok: bool)
      modifies this
      ensures submissions == if ok && k in old(submissions) then old(submissions)[k := Merge(old(submissions)[k], p)]
                             else old(submissions)
      ensures incidents == old(incidents) && retake == old(retake)
    {
      if ok && k in submissions {
        submissions := submissions[k := Merge(submissions[k], p)];
      }
    }

    method InsertIncident(k: Key, reason: string, ok: bool)
      modifies this
      ensures incidents == if !ok then old(incidents)
                           else old(incidents)[k := (if k in old(incidents) then old(incidents)[k] else []) + [reason]]
      ensures submissions == old(submissions) && retake == old(retake)
    {
      if ok {
        var prior := if k in incidents then incidents[k] else [];
        incidents := incidents[k := prior + [reason]];
      }
    }

    /** Upsert of `exam_retake` with `enabled: true`. */
    method EnableRetakeRow(k: Key, ok: bool)
      modifies this
      ensures retake == if ok then old(retake)[k := true] else old(retake)
      ensures submissions == old(submissions) && incidents == old(incidents)
    {
      if ok {
        retake := retake[k := true];
      }
    }

    /** Plain insert into `exam_retake`: fails on an existing row for the key. */
    method InsertRetakeRow(k: Key, ok: bool) returns (success: bool)
      modifies this
      ensures success <==> ok && k !in old(retake)
      ensures retake == if success then old(retake)[k := true] else old(retake)
      ensures submissions == old(submissions) && incidents == old(incidents)
    {
      success := ok && k !in retake;
      if success {
        retake := retake[k := true];
      }
    }

    method DeleteRetakeRow(k: Key, ok: bool)
      modifies this
      ensures retake == if ok then old(retake) - {k} else old(retake)
      ensures submissions == old(submissions) && incidents == old(incidents)
    {
      if ok {
        retake := retake - {k};
      }
    }

    /** `update({ score: 0 })` of the key's submission, if there is one. */
    method ZeroScore(k: Key, ok: bool)
      modifies this
      ensures submissions == if ok && k in old(submissions) then old(submissions)[k := old(submissions)[k].(score := 0.0)]
                             else old(submissions)
      ensures incidents == old(incidents) && retake == old(retake)
    {
      if ok && k in submissions {
        submissions := submissions[k := submissions[k].(score := 0.0)];
      }
    }
  }
}
