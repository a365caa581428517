/**
  The Ranger policy upload of policy_export.py: the exported policies are cut
  into batches of `BatchSize`, each policy is posted, and the statuses are
  tallied. The server is an oracle: `answers[i]` is what the post of the
  `i`-th policy of the export gets, a status code or an exception. The thread
  pool only runs the batches in parallel and collects their tallies in order,
  so the tally is modelled sequentially.
*/
module PolicyExport {

  import opened Wrappers
  import opened Json

  const BatchSize := 100

  /** A post counts as a success on 200 or 201. */
  predicate Accepted(status: int) {
    status == 200 || status == 201
  }

  /** The number of accepted statuses. */
  function Successes(status: seq<int>): (c: nat)
    ensures c <= |status|
  {
    if |status| == 0 then 0 else (if Accepted(status[0]) then 1 else 0) + Successes(status[1..])
  }

  lemma {:induction false} SuccessesAppend(a: seq<int>, b: seq<int>)
    ensures Successes(a + b) == Successes(a) + Successes(b)
    decreases |a|
  {
    if |a| > 0 {
      assert (a + b)[0] == a[0] && (a + b)[1..] == a[1..] + b;
      SuccessesAppend(a[1..], b);
    } else {
      assert a + b == b;
    }
  }

  /** The tally of a prefix, extended by the next slice. */
  lemma SuccessesSplit(status: seq<int>, i: nat, j: nat)
    requires i <= j <= |status|
    ensures Successes(status[..j]) == Successes(status[..i]) + Successes(status[i..j])
  {
    SuccessesAppend(status[..i], status[i..j]);
    assert status[..i] + status[i..j] == status[..j];
  }

  /** The outcome of one `session.post`: a status code, or an exception
      (the connect retries ran out, or the read failed; a POST is not
      retried on a read error or on a status). Nothing catches it. */
  datatype Answer = Answered(code: int) | PostRaised

  /** Whether a policy is posted and answered without raising. */
  predicate Posts(policy: Json, answer: Answer) {
    policy.Obj? && answer.Answered?
  }

  /** The exception of a policy that does not post: `policy.get` on a
      non-object, otherwise the post's own. */
  function PostError(policy: Json, answer: Answer): Raised {
    if !policy.Obj? then AttributeError else RequestException
  }

  /** The position of the first policy from `from` on that raises, or the
      length when none does. */
  function FirstRaise(policies: seq<Json>, answers: seq<Answer>, from: nat): (k: nat)
    requires |answers| == |policies| && from <= |policies|
    ensures from <= k <= |policies|
    ensures forall j :: from <= j < k ==> Posts(policies[j], answers[j])
    ensures k < |policies| ==> !Posts(policies[k], answers[k])
    decreases |policies| - from
  {
    if from == |policies| || !Posts(policies[from], answers[from]) then from
    else FirstRaise(policies, answers, from + 1)
  }

  /** The first raising policy is determined by the two properties above. */
  lemma {:induction false} FirstRaiseIs(policies: seq<Json>, answers: seq<Answer>, from: nat, k: nat)
    requires |answers| == |policies| && from <= k <= |policies|
    requires forall j :: from <= j < k ==> Posts(policies[j], answers[j])
    requires k < |policies| ==> !Posts(policies[k], answers[k])
    ensures FirstRaise(policies, answers, from) == k
    decreases k - from
  {
    if from < k {
      FirstRaiseIs(policies, answers, from + 1, k);
    }
  }

  /** The status codes of answered posts. */
  function Codes(answers: seq<Answer>): (cs: seq<int>)
    requires forall i :: 0 <= i < |answers| ==> answers[i].Answered?
    ensures |cs| == |answers| && forall i :: 0 <= i < |answers| ==> cs[i] == answers[i].code
  {
    if |answers| == 0 then [] else [answers[0].code] + Codes(answers[1..])
  }

  datatype Tally = Tally(successes: nat, failures: nat)

  /** `upload_batch`: one post per policy, in order. Reading `service` needs
      each policy to be an object, and a post can raise; either exception
      leaves the batch and loses its tally. */
  method UploadBatch(batch: seq<Json>, answers: seq<Answer>) returns (r: Result<Tally, Raised>)
    requires |answers| == |batch|
    ensures var k := FirstRaise(batch, answers, 0);
            && (r.Success? <==> k == |batch|)
            && (r.Failure? ==> k < |batch| && r.error == PostError(batch[k], answers[k]))
    ensures r.Success? ==> r.value.successes + r.value.failures == |batch|
    ensures r.Success? ==> r.value.successes == Successes(Codes(answers))
  {
    var successes, failures := 0, 0;
    var i := 0;
    while i < |batch| && Posts(batch[i], answers[i])
      invariant 0 <= i <= |batch|
      invariant forall t :: 0 <= t < i ==> Posts(batch[t], answers[t])
      invariant successes + failures == i
      invariant successes == Successes(Codes(answers[..i]))
    {
      var code := answers[i].code;
      TallyStep(answers, i);
      if Accepted(code) {
        successes := successes + 1;
      } else {
        failures := failures + 1;
      }
      i := i + 1;
    }
    FirstRaiseIs(batch, answers, 0, i);
    if i < |batch| {
      return Failure(PostError(batch[i], answers[i]));
    }
    assert answers[..i] == answers;
    return Success(Tally(successes, failures));
  }

  /** The tally of the answered posts so far, extended by one more post. */
  lemma TallyStep(answers: seq<Answer>, i: nat)
    requires i < |answers| && forall t :: 0 <= t <= i ==> answers[t].Answered?
    ensures Successes(Codes(answers[..i + 1]))
         == Successes(Codes(answers[..i])) + if Accepted(answers[i].code) then 1 else 0
  {
    assert Codes(answers[..i + 1]) == Codes(answers[..i]) + [answers[i].code];
    SuccessesAppend(Codes(answers[..i]), [answers[i].code]);
  }

  /** What `main` reports: the two totals, and whether the failure line is
      printed. */
  datatype Report = Report(successes: nat, failures: nat, failureLine: bool)

  /** `main`: the policies are cut into consecutive batches of `BatchSize`
      (the last one shorter) and the batches' tallies are summed in batch
      order. `future.result()` re-raises the exception of the first failing
      batch, so nothing is printed; otherwise the totals are those of
      posting every policy in one pass. */
  method Upload(policies: seq<Json>, answers: seq<Answer>) returns (r: Result<Report, Raised>)
    requires |answers| == |policies|
    ensures var k := FirstRaise(policies, answers, 0);
            && (r.Success? <==> k == |policies|)
            && (r.Failure? ==> k < |policies| && r.error == PostError(policies[k], answers[k]))
    ensures r.Success? ==> r.value.successes == Successes(Codes(answers))
    ensures r.Success? ==> r.value.successes + r.value.failures == |policies|
    ensures r.Success? ==> (r.value.failureLine <==> r.value.failures > 0)
  {
    var totalSuccess, totalFail := 0, 0;
    var done := 0;
    while done < |policies|
      invariant 0 <= done <= |policies|
      invariant forall t :: 0 <= t < done ==> Posts(policies[t], answers[t])
      invariant forall t :: 0 <= t < done ==> answers[t].Answered?
      invariant totalSuccess == Successes(Codes(answers[..done]))
      invariant totalSuccess + totalFail == done
    {
      var end := if done + BatchSize <= |policies| then done + BatchSize else |policies|;
      var b, a := policies[done..end], answers[done..end];
      var tally := UploadBatch(b, a);
      SliceRaise(policies, answers, done, end);
      if tally.Failure? {
        var t := FirstRaise(b, a, 0);
        assert b[t] == policies[done + t] && a[t] == answers[done + t];
        return Failure(tally.error);
      }
      BatchCodes(answers, done, end);
      totalSuccess := totalSuccess + tally.value.successes;
      totalFail := totalFail + tally.value.failures;
      done := end;
    }
    FirstRaiseIs(policies, answers, 0, done);
    assert answers[..done] == answers;
    return Success(Report(totalSuccess, totalFail, totalFail > 0));
  }

  /** A batch's first raising policy, when every policy before the batch
      posts, is the first raising policy of the whole export. */
  lemma SliceRaise(policies: seq<Json>, answers: seq<Answer>, lo: nat, hi: nat)
    requires |answers| == |policies| && lo <= hi <= |policies|
    requires forall j :: 0 <= j < lo ==> Posts(policies[j], answers[j])
    ensures var t := FirstRaise(policies[lo..hi], answers[lo..hi], 0);
            && (forall j :: 0 <= j < lo + t ==> Posts(policies[j], answers[j]))
            && (t < hi - lo ==> FirstRaise(policies, answers, 0) == lo + t)
  {
    var b, a := policies[lo..hi], answers[lo..hi];
    var t := FirstRaise(b, a, 0);
    forall j | lo <= j < lo + t
      ensures Posts(policies[j], answers[j])
    {
      assert policies[j] == b[j - lo] && answers[j] == a[j - lo];
    }
    if t < hi - lo {
      assert b[t] == policies[lo + t] && a[t] == answers[lo + t];
      FirstRaiseIs(policies, answers, 0, lo + t);
    }
  }

  /** The tally of the answered posts so far, extended by the next batch. */
  lemma BatchCodes(answers: seq<Answer>, i: nat, j: nat)
    requires i <= j <= |answers| && forall t :: 0 <= t < j ==> answers[t].Answered?
    ensures Successes(Codes(answers[..j])) == Successes(Codes(answers[..i])) + Successes(Codes(answers[i..j]))
  {
    var all := Codes(answers[..j]);
    assert Codes(answers[..i]) == all[..i];
    assert Codes(answers[i..j]) == all[i..j];
    SuccessesSplit(all, i, j);
    assert all[..j] == all;
  }
}
